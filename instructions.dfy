/** Instructions of the P-code machine (main.cpp): the command and operation
    enumerations, the operation selector `to_op`, the arithmetic and
    comparison operations the interpreter hands to the stack, and the packed
    32-bit instruction word with its decoder and encoder. */
module Instructions {
  import opened Int32
  import opened Errors

  /** `enum Command`; its ordinals 0..7 are what a word stores in bits 4..7. */
  datatype Command = Lit | Opr | Lod | Sto | Cal | Inc | Jpc | Jmp {
    function Ordinal(): nat {
      match this
      case Lit => 0 case Opr => 1 case Lod => 2 case Sto => 3
      case Cal => 4 case Inc => 5 case Jpc => 6 case Jmp => 7
    }
  }

  /** The command with ordinal `n`; the C++ cast of a nibble 8..15 to
      `Command` has no enumerator to land on, so it is refused here. */
  function CommandOf(n: int): (r: Result<Command>)
    ensures r.Ok? <==> 0 <= n < 8
    ensures r.Ok? ==> r.value.Ordinal() == n
    ensures r.Err? ==> r.fault == InvalidCommand
  {
    if n == 0 then Ok(Lit) else if n == 1 then Ok(Opr)
    else if n == 2 then Ok(Lod) else if n == 3 then Ok(Sto)
    else if n == 4 then Ok(Cal) else if n == 5 then Ok(Inc)
    else if n == 6 then Ok(Jpc) else if n == 7 then Ok(Jmp)
    else Err(InvalidCommand)
  }

  /** `enum Operation`, the selector carried by an `opr` instruction. */
  datatype Operation =
    | Retrn | Neg | Add | Sub | Times | Divide | Mod
    | Equals | Unequals | Less | Greater | LessOrEquals | GreaterOrEquals
  {
    function Ordinal(): nat {
      match this
      case Retrn => 0 case Neg => 1 case Add => 2 case Sub => 3 case Times => 4
      case Divide => 5 case Mod => 6 case Equals => 7 case Unequals => 8
      case Less => 9 case Greater => 10 case LessOrEquals => 11
      case GreaterOrEquals => 12
    }

    /** The operations the interpreter hands to the stack's unary apply. */
    predicate IsUnary() { Neg? }

    /** The operations the interpreter hands to the stack's binary apply. */
    predicate IsBinary() { !Retrn? && !Neg? }

    predicate IsComparison() {
      Equals? || Unequals? || Less? || Greater? || LessOrEquals? || GreaterOrEquals?
    }
  }

  /** `max_operation = greater_or_equals` */
  const MaxOperation: int := 12

  /** `to_op`: the operation with ordinal `value`, or a domain error. */
  function ToOp(value: int): (r: Result<Operation>)
    ensures r.Ok? <==> 0 <= value <= MaxOperation
    ensures r.Ok? ==> r.value.Ordinal() == value
    ensures r.Err? ==> r.fault == UnknownOperation
  {
    if value < 0 || value > MaxOperation then Err(UnknownOperation)
    else if value == 0 then Ok(Retrn) else if value == 1 then Ok(Neg)
    else if value == 2 then Ok(Add) else if value == 3 then Ok(Sub)
    else if value == 4 then Ok(Times) else if value == 5 then Ok(Divide)
    else if value == 6 then Ok(Mod) else if value == 7 then Ok(Equals)
    else if value == 8 then Ok(Unequals) else if value == 9 then Ok(Less)
    else if value == 10 then Ok(Greater) else if value == 11 then Ok(LessOrEquals)
    else Ok(GreaterOrEquals)
  }

  /** `to_op` inverts `Ordinal`: every operation survives the trip through
      its selector number. */
  lemma ToOpOrdinal(op: Operation)
    ensures ToOp(op.Ordinal()) == Ok(op)
  {
    match op
    case Retrn => case Neg => case Add => case Sub => case Times =>
    case Divide => case Mod => case Equals => case Unequals => case Less =>
    case Greater => case LessOrEquals => case GreaterOrEquals =>
  }

  /** A 32-bit result, or the overflow C++ would leave undefined. */
  function Checked(x: int): (r: Result<int>)
    ensures r.Ok? <==> InRange(x)
    ensures r.Ok? ==> r.value == x
    ensures r.Err? ==> r.fault == ArithmeticOverflow
  {
    if InRange(x) then Ok(x) else Err(ArithmeticOverflow)
  }

  /** The lambda main.cpp passes for `neg`. */
  function Unary(op: Operation, a: int): (r: Result<int>)
    requires op.IsUnary()
    ensures r.Ok? <==> InRange(-a)
    ensures r.Ok? ==> r.value + a == 0
  {
    Checked(-a)
  }

  function Bool(b: bool): int {
    if b then 1 else 0
  }

  /** The lambdas main.cpp passes for the binary operations. The stack calls
      them as `fn(first, second)` where `first` is the element that was on
      top, so `a` is the later-pushed operand. */
  function Binary(op: Operation, a: int, b: int): (r: Result<int>)
    requires op.IsBinary()
    ensures r.Ok? ==> InRange(r.value)
    ensures r.Err? ==> r.fault in {DivisionByZero, ArithmeticOverflow}
    ensures (op.Divide? || op.Mod?) ==> (b == 0 <==> r == Err(DivisionByZero))
    ensures op.IsComparison() ==> r.Ok? && (r.value == 0 || r.value == 1)
  {
    match op
    case Add => Checked(a + b)
    case Sub => Checked(a - b)
    case Times => Checked(a * b)
    case Divide => if b == 0 then Err(DivisionByZero) else Checked(Quot(a, b))
    case Mod =>
      // C++ leaves a % b undefined whenever a / b is not representable.
      if b == 0 then Err(DivisionByZero)
      else if !InRange(Quot(a, b)) then Err(ArithmeticOverflow)
      else Checked(Rem(a, b))
    case Equals => Ok(Bool(a == b))
    case Unequals => Ok(Bool(a != b))
    case Less => Ok(Bool(a < b))
    case Greater => Ok(Bool(a > b))
    case LessOrEquals => Ok(Bool(a <= b))
    case GreaterOrEquals => Ok(Bool(a >= b))
  }

  /** On 32-bit operands the arithmetic operations fail exactly where C++
      has no defined result, and otherwise compute the C++ value. */
  lemma BinaryArithmetic(op: Operation, a: int, b: int)
    requires op.IsBinary() && !op.IsComparison()
    requires InRange(a) && InRange(b)
    ensures op.Add? ==> (Binary(op, a, b) == Ok(a + b) <==> InRange(a + b))
    ensures op.Sub? ==> (Binary(op, a, b) == Ok(a - b) <==> InRange(a - b))
    ensures op.Times? ==> (Binary(op, a, b) == Ok(a * b) <==> InRange(a * b))
    ensures op.Divide? && b != 0 ==>
      (Binary(op, a, b) == Ok(Quot(a, b)) <==> !(a == MIN && b == -1))
    ensures op.Mod? && b != 0 ==>
      (Binary(op, a, b) == Ok(Rem(a, b)) <==> !(a == MIN && b == -1))
  {
    if (op.Divide? || op.Mod?) && b != 0 {
      QuotInRange(a, b);
    }
  }

  /** The only 32-bit quotient that does not fit in 32 bits is MIN / -1. */
  lemma QuotInRange(a: int, b: int)
    requires InRange(a) && InRange(b) && b != 0
    ensures InRange(Quot(a, b)) <==> !(a == MIN && b == -1)
  {
    var A, B := Abs(a), Abs(b);
    var q0, r0 := NaturalDivision(A, B);
    assert Quot(a, b) == (if (a < 0) == (b < 0) then q0 else -q0);
    if B == 1 {
      assert q0 == A;
    } else {
      MulNonNegative(B - 2, q0);
      assert 2 * q0 <= B * q0 <= A;
    }
  }

  /** A comparison leaves 1 exactly when the later-pushed operand `a` stands
      in the relation to the earlier-pushed `b`, and 0 otherwise. */
  lemma ComparisonMeaning(op: Operation, a: int, b: int)
    requires op.IsComparison()
    ensures op.Less? ==> (Binary(op, a, b) == Ok(1) <==> a < b)
    ensures op.Greater? ==> (Binary(op, a, b) == Ok(1) <==> a > b)
    ensures op.LessOrEquals? ==> (Binary(op, a, b) == Ok(1) <==> a <= b)
    ensures op.GreaterOrEquals? ==> (Binary(op, a, b) == Ok(1) <==> a >= b)
    ensures op.Equals? ==> (Binary(op, a, b) == Ok(1) <==> a == b)
    ensures op.Unequals? ==> (Binary(op, a, b) == Ok(1) <==> a != b)
  {
  }

  /** `struct Instruction` in decoded form. */
  datatype Instruction = Instruction(command: Command, value: int, level: int)

  /** `Instruction(enum Operation op)`: an `opr` selecting `op`. */
  function OprInstruction(op: Operation): (i: Instruction)
    ensures i.command == Opr && i.level == 0
    ensures ToOp(i.value) == Ok(op)
  {
    ToOpOrdinal(op);
    Instruction(Opr, op.Ordinal(), 0)
  }

  /** Fields that fit the word layout: level in bits 0..3 and a value that
      survives the arithmetic shift in bits 8..31. */
  predicate WellFormed(i: Instruction) {
    0 <= i.level < 16 && FitsValue(i.value)
  }

  /** A value that bits 8..31 of a word can carry. */
  predicate FitsValue(v: int) {
    -0x80_0000 <= v < 0x80_0000
  }

  /** Bits 4..7 of a word, `(code >> 4) & 0xf`: an arithmetic right shift is
      floor division by a power of two and `& 0xf` of a two's complement
      number is its Euclidean remainder modulo 16. */
  function CommandNibble(word: int): int {
    (word / 16) % 16
  }

  /** The decoding constructor `Instruction(const int code)`: level is
      `code & 0xf`, value is `code >> 8`, sign-extended. */
  function Decode(word: int): (r: Result<Instruction>)
    ensures r.Ok? <==> CommandNibble(word) < 8
    ensures r.Err? ==> r.fault == InvalidCommand
    ensures r.Ok? ==> 0 <= r.value.level < 16
    ensures r.Ok? ==>
      r.value.value * 256 + r.value.command.Ordinal() * 16 + r.value.level == word
    ensures r.Ok? && InRange(word) ==> WellFormed(r.value)
  {
    match CommandOf(CommandNibble(word))
    case Ok(c) => Ok(Instruction(c, word / 256, word % 16))
    case Err(f) => Err(f)
  }

  /** `operator int`: `(command << 4) | level | (value << 8)`. For
      well-formed fields the three bit ranges do not overlap, so the or is a
      sum. */
  function Encode(i: Instruction): (w: int)
    requires WellFormed(i)
    ensures InRange(w)
  {
    i.value * 256 + i.command.Ordinal() * 16 + i.level
  }

  /** Decoding an encoded instruction gives back its fields. */
  lemma DecodeEncode(i: Instruction)
    requires WellFormed(i)
    ensures Decode(Encode(i)) == Ok(i)
  {
    var w := Encode(i);
    var c := i.command.Ordinal();
    assert w == (i.value * 16 + c) * 16 + i.level;
    assert w / 16 == i.value * 16 + c;
    assert CommandNibble(w) == c;
    assert w % 16 == i.level;
    assert w / 256 == i.value;
    match i.command
    case Lit => case Opr => case Lod => case Sto => case Cal =>
    case Inc => case Jpc => case Jmp =>
  }

  /** Every 32-bit word with a valid command nibble is the encoding of what
      it decodes to: decoding loses nothing. */
  lemma EncodeDecode(word: int)
    requires InRange(word) && Decode(word).Ok?
    ensures Encode(Decode(word).value) == word
  {
  }
}
