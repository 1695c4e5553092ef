/** `class Stack` of stack.h and stack.cpp: a fixed-capacity stack of ints
    over storage the caller supplies. The raw pointers `begin_`, `top_` and
    `end_` become the array `data` (capacity `data.Length`) and the cursor
    `size`; each exception becomes a `Fault` in the returned `Result`.
    Every method is proved to change the stack exactly as the matching
    function of `StackModel` says. */
module BoundedStack {
  import opened Errors
  import opened Instructions
  import StackModel

  class Stack {
    const data: array<int>
    var size: nat

    /** `0 <= size <= capacity` (stack.h:18 asserts `begin <= end`). */
    ghost predicate Valid()
      reads this
    {
      size <= data.Length
    }

    /** The abstract value: the whole buffer and the cursor. */
    ghost function Model(): StackModel.StackState
      reads this, data
    {
      StackModel.StackState(data[..], size)
    }

    /** The elements from the bottom to the top. */
    ghost function Contents(): seq<int>
      reads this, data
      requires Valid()
    {
      data[..size]
    }

    /** `Stack(int *begin, const int *end)`: an empty stack over `storage`,
        whose contents are left as they are. */
    constructor (storage: array<int>)
      ensures Valid() && data == storage && Contents() == []
      ensures Model() == StackModel.StackState(storage[..], 0)
    {
      data := storage;
      size := 0;
    }

    /** `full()` */
    function Full(): (b: bool)
      reads this, data
      requires Valid()
      ensures b <==> |Contents()| == data.Length
    {
      size >= data.Length
    }

    /** `empty()` */
    function Empty(): (b: bool)
      reads this, data
      requires Valid()
      ensures b <==> Contents() == []
    {
      size == 0
    }

    /** `size()` */
    function Size(): (n: nat)
      reads this, data
      requires Valid()
      ensures n == |Contents()|
    {
      size
    }

    /** `assert_not_empty()`: "stack underflow" exactly when empty. */
    method AssertNotEmpty() returns (r: Result<()>)
      requires Valid()
      ensures r.Ok? <==> Contents() != []
      ensures r.Err? ==> r.fault == StackUnderflow
    {
      if size == 0 {
        return Err(StackUnderflow);
      }
      return Ok(());
    }

    method Push(v: int) returns (r: Result<()>)
      requires Valid()
      modifies this, data
      ensures Valid()
      ensures var e := StackModel.Push(old(Model()), v); r == e.ToResult() && Model() == e.st
    {
      if size >= data.Length {
        return Err(StackOverflow);
      }
      data[size] := v;
      size := size + 1;
      return Ok(());
    }

    method Pop() returns (r: Result<int>)
      requires Valid()
      modifies this
      ensures Valid()
      ensures var e := StackModel.Pop(old(Model())); r == e.ToResult() && Model() == e.st
    {
      var ok := AssertNotEmpty();
      if ok.Err? {
        return Err(ok.fault);
      }
      size := size - 1;
      return Ok(data[size]);
    }

    /** `operator[]` used for reading. */
    method At(i: int) returns (r: Result<int>)
      requires Valid()
      ensures r == StackModel.At(Model(), i)
      ensures r.Ok? <==> 0 <= i < |Contents()|
    {
      if i < 0 || i >= size {
        return Err(IndexOutOfBounds);
      }
      return Ok(data[i]);
    }

    /** `operator[]` used for writing, as `sto` does through the returned
        reference. */
    method Store(i: int, v: int) returns (r: Result<()>)
      requires Valid()
      modifies data
      ensures Valid()
      ensures var e := StackModel.Store(old(Model()), i, v); r == e.ToResult() && Model() == e.st
    {
      if i < 0 || i >= size {
        return Err(IndexOutOfBounds);
      }
      data[i] := v;
      return Ok(());
    }

    method Resize(delta: int) returns (r: Result<()>)
      requires Valid()
      modifies this
      ensures Valid()
      ensures var e := StackModel.Resize(old(Model()), delta); r == e.ToResult() && Model() == e.st
    {
      var top := size + delta;
      if delta < 0 && top < 0 {
        return Err(RemoveTooMany);
      } else if delta > 0 && top > data.Length {
        return Err(AddTooMany);
      }
      size := top;
      return Ok(());
    }

    /** The unary `operator()`. */
    method Apply1(op: Operation) returns (r: Result<()>)
      requires Valid() && op.IsUnary()
      modifies data
      ensures Valid()
      ensures var e := StackModel.Apply1(old(Model()), op); r == e.ToResult() && Model() == e.st
    {
      var ok := AssertNotEmpty();
      if ok.Err? {
        return Err(ok.fault);
      }
      var x := Unary(op, data[size - 1]);
      if x.Err? {
        return Err(x.fault);
      }
      data[size - 1] := x.value;
      return Ok(());
    }

    /** The binary `operator()`: the top is popped first and passed as the
        first argument. */
    method Apply2(op: Operation) returns (r: Result<()>)
      requires Valid() && op.IsBinary()
      modifies this, data
      ensures Valid()
      ensures var e := StackModel.Apply2(old(Model()), op); r == e.ToResult() && Model() == e.st
    {
      if size < 2 {
        return Err(NotTwoArguments);
      }
      size := size - 1;
      var first := data[size];
      var x := Binary(op, first, data[size - 1]);
      if x.Err? {
        return Err(x.fault);
      }
      data[size - 1] := x.value;
      return Ok(());
    }
  }
}
