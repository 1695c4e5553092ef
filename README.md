# p_code: a P-code stack machine, modelled in Dafny

p_code is a small P-code virtual machine. The machine word is a 32-bit C++
`int`. One word packs an instruction: the level in bits 0-3, the command in
bits 4-7 and a signed value in bits 8-31. The machine has eight commands:
`lit`, `opr`, `lod`, `sto`, `cal`, `inc`, `jpc` and `jmp`. `opr` selects one
of thirteen operations: return and twelve arithmetic and comparison
operations.

All data lives on one bounded stack over caller-supplied storage. That stack
holds operands, local variables and call frames. A frame stores the return
address and the caller's frame base `ref`. `lod` and `sto` reach outer
frames by following `level` saved frame bases.

The interpreter runs a do-while loop: fetch, decode, dispatch. It stops when
the stack is empty after an instruction, or when a C++ exception is thrown.

The project has these modules:

- `Int32`: the 32-bit range, and C++ division and remainder, which truncate
  toward zero.
- `Errors`: the faults, which are the exceptions of the C++ code plus three
  explicit faults for undefined behaviour. Also `Result`.
- `Instructions`: the `Command` and `Operation` enumerations, `to_op`, the
  operation lambdas, and the instruction word's decoder and encoder.
- `StackModel`: the stack as a value. Each operation is a function that gives
  what the operation returns or throws, together with the stack it leaves.
- `BoundedStack`: `class Stack` over an `array<int>`. Each method is proved
  to change the object exactly as the matching `StackModel` function says.
- `Semantics`: `get` and one interpreter cycle as functions, plus a run of
  at most `fuel` cycles.
- `Interpreter`: `get` and `interpret` as imperative loops over a `Stack`
  object, proved to compute what `Semantics` says.
- `Properties`: call and return, jumps, registers, operand order, the
  do-while shape of the loop and the sample program of `main`.

Some behaviour of the code that is easy to get wrong:

- `lit A; lit B; opr sub` leaves `B - A`: the stack passes the element that
  was on top as the first argument of the lambda (stack.h:44-45).
- The sample program of `main` ends with the single element 0x300
  (1536 / 2), and the next fetch throws "out of code segment".
- With no code, the first fetch throws "out of code segment".
- An `opr` selector outside 0..12 is rejected when the instruction runs
  (`to_op`), not when it is decoded.
- After a `cal` and its `retrn`, the stack has exactly its pre-call size.
- `sto` pops the value first and then resolves its slot on the popped
  stack, as C++17 sequences the right operand of `=` before the left.

## Model

| member | source | states |
|---|---|---|
| `Int32.TruncatedDivision` | main.cpp:74-75 | C++ `/` and `%`: `b*q + r == a`, the remainder is smaller than the divisor in magnitude, the remainder has the dividend's sign, and the quotient does not overshoot `a` (it rounds toward zero) |
| `Int32.QuotOfNonNegative` | main.cpp:74-75 | on a non-negative dividend and a positive divisor, truncating division agrees with floor division |
| `Instructions.CommandOf` | main.cpp:33 | a command nibble names a command exactly when it is 0..7, and then the command's ordinal is that nibble; 8..15 is `InvalidCommand` |
| `Instructions.ToOp` | main.cpp:19-22 | `to_op` succeeds exactly for 0..`max_operation` (12), with that ordinal; otherwise "unknown operation" |
| `Instructions.ToOpOrdinal` | main.cpp:12-22 | `to_op` inverts the enumeration's ordinals, for every operation |
| `Instructions.Unary` | main.cpp:70 | `neg` gives the additive inverse, and fails exactly when that is not a 32-bit int |
| `Instructions.Binary` | main.cpp:71-81 | every result fits 32 bits; the only faults are division by zero and overflow; `/` and `%` fail with division by zero exactly when the divisor is 0; comparisons always give 0 or 1 |
| `Instructions.BinaryArithmetic` | main.cpp:71-75 | on 32-bit operands, add/sub/times give the exact value exactly when it fits; `/` and `%` give C++'s truncated quotient and remainder except for `INT_MIN / -1` |
| `Instructions.QuotInRange` | main.cpp:74 | the only 32-bit quotient that does not fit 32 bits is `INT_MIN / -1` |
| `Instructions.ComparisonMeaning` | main.cpp:76-81 | each comparison gives 1 exactly when the later-pushed operand stands in that relation to the earlier one |
| `Instructions.OprInstruction` | main.cpp:30 | `Instruction(op)` is an `opr` at level 0 whose value `to_op` maps back to `op` |
| `Instructions.Decode` | main.cpp:32-36 | decoding succeeds exactly when the command nibble is below 8; the level is 0..15; value, command and level reassemble to the word; a 32-bit word gives fields that fit the layout |
| `Instructions.Encode` | main.cpp:38-40 | packing fields that fit the layout gives a 32-bit word |
| `Instructions.DecodeEncode` | main.cpp:32-40 | decoding an encoded instruction gives the instruction back |
| `Instructions.EncodeDecode` | main.cpp:32-40 | encoding what a valid 32-bit word decodes to gives the word back |
| `StackModel.Push` | stack.h:25-28 | `push` succeeds exactly when the stack is not full and appends the value; when full it throws "stack overflow" and changes nothing |
| `StackModel.Pop` | stack.h:30-33 | `pop` succeeds exactly when the stack is not empty and returns the top, which is removed; when empty it throws "stack underflow" and changes nothing |
| `StackModel.At` | stack.cpp:3-7 | reading slot `i` succeeds exactly when `0 <= i < size` and gives the `i`-th element from the bottom; otherwise "index out of bounds" |
| `StackModel.Store` | stack.cpp:3-7 | writing slot `i` has the same bounds check and changes that element and nothing else |
| `StackModel.Resize` | stack.cpp:9-14 | `resize(d)` succeeds exactly when `0 <= size + d <= capacity` and moves the top by `d` without touching the buffer; otherwise "remove too many elements" or "add too many elements", with nothing changed |
| `StackModel.Apply1` | stack.h:37-40 | the unary apply throws "stack underflow" on an empty stack, and otherwise replaces the top with `fn(top)` or fails with `fn`'s fault |
| `StackModel.Apply2` | stack.h:42-46 | the binary apply throws "not two arguments for binary" below two elements; otherwise it replaces the two top elements `t` (top) and `u` with `fn(t, u)`; a failing `fn` leaves the stack with `t` already popped |
| `StackModel.PushThenPop` | stack.h:25-33 | a push followed by a pop gives back the value and the original contents |
| `StackModel.ResizeUndo` | stack.cpp:9-14 | a successful `resize(d)` is undone by `resize(-d)`, and `resize(0)` changes nothing |
| `StackModel.ResizeKeeps` | stack.cpp:9-14 | `resize` keeps every element below the smaller size; slots it exposes hold what the buffer held |
| `BoundedStack.Stack.constructor` | stack.h:17-19 | a new stack is empty and uses the given storage |
| `BoundedStack.Stack.Full` | stack.h:21 | `full()` holds exactly when the number of elements equals the capacity |
| `BoundedStack.Stack.Empty` | stack.h:22 | `empty()` holds exactly when there are no elements |
| `BoundedStack.Stack.Size` | stack.h:23 | `size()` is the number of elements |
| `BoundedStack.Stack.AssertNotEmpty` | stack.h:12-14 | throws "stack underflow" exactly when the stack is empty |
| `BoundedStack.Stack.Push` | stack.h:25-28 | changes the object as `StackModel.Push` says and returns what it throws |
| `BoundedStack.Stack.Pop` | stack.h:30-33 | changes the object as `StackModel.Pop` says and returns the popped value or the fault |
| `BoundedStack.Stack.At` | stack.cpp:3-7 | returns exactly `StackModel.At`: the element or "index out of bounds" |
| `BoundedStack.Stack.Store` | stack.cpp:3-7 | changes the storage as `StackModel.Store` says |
| `BoundedStack.Stack.Resize` | stack.cpp:9-14 | changes the cursor as `StackModel.Resize` says |
| `BoundedStack.Stack.Apply1` | stack.h:37-40 | changes the storage as `StackModel.Apply1` says |
| `BoundedStack.Stack.Apply2` | stack.h:42-46 | changes cursor and storage as `StackModel.Apply2` says |
| `Semantics.Links` | main.cpp:44 | following saved frame bases fails only with "index out of bounds" |
| `Semantics.LinksSplit` | main.cpp:44 | following `a + b` links is following `a` links and then `b` more |
| `Semantics.Resolve` | main.cpp:43-46 | `get` gives a slot below the top, namely `base + idx` for the base reached through `level` links, exactly when the links resolve and that slot exists; otherwise "index out of bounds" |
| `Semantics.ResolveLevels` | main.cpp:43-46 | level 0 addresses `ref + idx` directly; level `n + 1` starts from the frame base stored at slot `ref` |
| `Semantics.Return` | main.cpp:64-68 | `retrn` leaves a valid stack of the same capacity (its outcomes are in `Properties.ReturnOutcomes`) |
| `Semantics.Execute` | main.cpp:57-113 | executing any instruction leaves a valid stack of the same capacity and never halts by itself |
| `Semantics.AfterCycle` | main.cpp:115 | the loop condition halts exactly the cycles that leave the stack empty, and changes no other outcome |
| `Semantics.Step` | main.cpp:54-115 | a cycle halts only on an empty stack and continues only on a non-empty one; a program counter outside the code is "out of code segment" with the stack untouched |
| `Semantics.Run` | main.cpp:48-116 | a run halts only with an empty stack; it is cut off only with a non-empty stack, or before it started |
| `Semantics.RunSplit` | main.cpp:54-115 | running `a + b` cycles is running `a` cycles and then `b` more |
| `Interpreter.Get` | main.cpp:43-46 | the link-following loop computes `Semantics.Resolve`: a slot below the top, or "index out of bounds" |
| `Interpreter.Return` | main.cpp:64-68 | the imperative `retrn` agrees with `Semantics.Return` in outcome, registers and stack |
| `Interpreter.Execute` | main.cpp:57-113 | the `switch` agrees with `Semantics.Execute` in outcome, registers and stack |
| `Interpreter.Step` | main.cpp:54-115 | one turn of the loop agrees with `Semantics.Step` |
| `Interpreter.Interpret` | main.cpp:48-116 | the do-while loop, cut off after `fuel` cycles, ends as `Semantics.Run` says, with the stack it says |
| `Interpreter.RunAfterStep` | main.cpp:54-115 | a run is one cycle followed by the rest of the run, unless that cycle halts or throws |
| `Properties.StepDecoded` | main.cpp:55-57 | fetching an encoded instruction executes exactly that instruction, then tests the stack |
| `Properties.EmptyCodeFails` | main.cpp:54-55 | with no code, the machine throws "out of code segment" at once, whatever the stack holds |
| `Properties.FirstInstructionRuns` | main.cpp:54-115 | an empty stack on entry does not stop the machine: the first instruction runs |
| `Properties.CallPushesFrame` | main.cpp:93-99 | `cal t` succeeds exactly when two slots are free; it pushes the return address and the caller's `ref`, sets `ref` to the slot of the latter and jumps to `t`; otherwise "stack overflow" |
| `Properties.ReturnOutcomes` | main.cpp:64-68 | `retrn` with frame base `ref` in range restores `pc` and `ref` from slots `ref - 1` and `ref` and leaves `ref - 1` elements; it gives "add too many elements" beyond capacity, "remove too many elements" below -1, and "stack underflow" for `ref` of -1 or 0 |
| `Properties.ReturnAfterCall` | main.cpp:64-99 | when the callee leaves the caller's slots and the frame cells intact, `retrn` comes back after the `cal` with the caller's `ref` and exactly the caller's stack |
| `Properties.CallThenReturn` | main.cpp:64-99 | a `retrn` straight after a `cal` restores the program counter after the call, the frame base and the stack |
| `Properties.LodPushes` | main.cpp:85-88 | `lod` pushes a copy of the slot `get` resolves and goes on to the next instruction with `ref` kept; an unresolvable slot is "index out of bounds" and a full stack "stack overflow", both with the stack untouched |
| `Properties.StoWrites` | main.cpp:89-92 | `sto` underflows on an empty stack; otherwise it pops the value and writes it into the slot resolved on the popped stack, or fails with "index out of bounds" with the value already popped |
| `Properties.JumpOutcomes` | main.cpp:104-112 | `jpc` underflows on an empty stack; otherwise it pops and jumps exactly when the condition is non-zero; `jmp` always jumps; neither changes `ref` |
| `Properties.RegistersKept` | main.cpp:57-113 | only `cal` and `retrn` change `ref`; every instruction other than `cal`, `retrn`, `jpc` and `jmp` goes on to the next instruction |
| `Properties.LitStep` | main.cpp:58-61 | a cycle fetching `lit v` pushes `v` and goes on |
| `Properties.BinaryStep` | main.cpp:62-84 | a cycle fetching a binary `opr` applies the operation to the two top elements |
| `Properties.ApplyAfterPushes` | stack.h:42-46 | after pushing `a` and then `b`, a binary operation leaves `op(b, a)`, or leaves `a` on top when it fails |
| `Properties.OperandProgramRun` | main.cpp:54-84 | three cycles of `lit a; lit b; opr op` push `a`, push `b` and apply `op` to the two top elements |
| `Properties.LaterOperandFirst` | stack.h:42-46 | `lit a; lit b; opr op` leaves `op(b, a)` on the caller's stack, so `sub` leaves `b - a`; a failing operation stops with `a` on top |
| `Properties.SampleLiterals` | main.cpp:122-125 | the first three cycles of the sample program leave `2, 0x200, 0x400` on the stack |
| `Properties.SampleProgram` | main.cpp:118-131 | on `main`'s 100-slot stack the sample program throws "out of code segment" with 0x300 as the only element |
| `Properties.JumpBeforeCode` | main.cpp:55 | `lit 1; jmp -1` reaches `pc == -1`, which the guard as written lets through; the corrected `Step` throws "out of code segment" there |
| `Properties.FetchOutsideCodeFails` | main.cpp:55 | with the corrected guard, any program counter below or beyond the code stops a run with "out of code segment" and the stack untouched |

## Left out

- `main`'s output and the printing of the stack after an exception are not
  modelled. `SampleProgram` states the outcome that `main` prints.
- The operations are not arbitrary `std::function` objects. The model uses
  the closed set of lambdas that main.cpp passes.
- The `assert`s on non-null storage and code pointers (stack.h:18,
  main.cpp:49) are not modelled. An `array` and a `seq` always exist and have
  a length.
- Semantics.Run: a run that never empties the stack does not terminate in
  C++. Here it is cut off after `fuel` cycles, with `Continue`.
- Interpreter.Interpret: the same fuel bound. When the fuel runs out it
  reports `Running`.
- Behaviour that C++ leaves undefined becomes explicit faults:
  - a command nibble 8..15 becomes `InvalidCommand` (compiled code would
    match no case of the switch and do nothing);
  - signed overflow of `neg`, `+`, `-` and `*` becomes `ArithmeticOverflow`;
  - `INT_MIN / -1` and `INT_MIN % -1` become `ArithmeticOverflow`;
  - a zero divisor becomes `DivisionByZero`;
  - `value << 8` in `operator int` on a negative value is undefined before
    C++20; the model packs a negative value as `value * 256`, the meaning
    C++20 gives the shift.
- Instructions.Encode: requires the level to be 0..15 and the value to fit
  24 bits. Outside those ranges, `operator int` would overlap fields or shift
  into the sign bit, and the encoding cannot be decoded back.
- Address arithmetic uses unbounded integers: `ref + idx`, `ref + 1 - size`,
  the code offset pushed by `cal`, and `code_begin + value`. 32-bit
  wrap-around of these sums is not modelled.
- When a binary lambda has no defined result, the model throws after the
  binary apply has popped its first operand. This is where an exception from
  `fn` would leave the stack.
- Storage aliasing between the stack's buffer and anything else is not
  modelled. The class owns its array.

## Findings

| source | as written | input that shows it | evidently intended | confidence | as-written member | corrected member |
|---|---|---|---|---|---|---|
| main.cpp:55 | the fetch guard rejects only `cp >= code_end`, so a program counter below `code_begin` is dereferenced | `lit 1; jmp -1` on any stack with room: after two cycles `pc == -1` and the stack is not empty, so the third fetch reads before the code | any program counter outside `[code_begin, code_end)` throws "out of code segment" (`Properties.FetchOutsideCodeFails`) | not executed; high | `Properties.JumpBeforeCode` | `Semantics.Step` |
