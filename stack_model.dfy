/** The bounded stack of stack.h and stack.cpp as a value: the whole
    caller-supplied buffer and the cursor `size` (`top_ - begin_`). Each
    operation is a function giving the value it produces, or the fault it
    throws, together with the state it leaves behind. The class
    `BoundedStack.Stack` is proved to behave as these functions say. */
module StackModel {
  import opened Errors
  import opened Instructions

  /** The buffer is kept whole because `resize` exposes slots above `size`
      with whatever they already held. */
  datatype StackState = StackState(buf: seq<int>, size: nat) {
    /** `0 <= size <= capacity`, the class invariant. */
    predicate Valid() { size <= |buf| }

    function Capacity(): nat { |buf| }

    /** The elements from the bottom (index 0) to the top. */
    function Contents(): seq<int>
      requires Valid()
    {
      buf[..size]
    }
  }

  /** What an operation returns, or throws, and the stack it leaves. */
  datatype Effect<+T> = Done(value: T, st: StackState) | Threw(fault: Fault, st: StackState) {
    function ToResult(): Result<T> {
      match this
      case Done(v, _) => Ok(v)
      case Threw(f, _) => Err(f)
    }
  }

  /** `push`: throws "stack overflow" when full, otherwise appends. */
  function Push(s: StackState, v: int): (r: Effect<()>)
    requires s.Valid()
    ensures r.st.Valid() && r.st.Capacity() == s.Capacity()
    ensures r.Done? <==> s.size < s.Capacity()
    ensures r.Done? ==> r.st.Contents() == s.Contents() + [v] && r.st.buf == s.buf[s.size := v]
    ensures r.Threw? ==> r.fault == StackOverflow && r.st == s
  {
    if s.size >= |s.buf| then Threw(StackOverflow, s)
    else
      var t := StackState(s.buf[s.size := v], s.size + 1);
      assert t.Contents() == s.Contents() + [v];
      Done((), t)
  }

  /** `pop`: throws "stack underflow" when empty, otherwise removes and
      returns the top. The buffer itself is not touched. */
  function Pop(s: StackState): (r: Effect<int>)
    requires s.Valid()
    ensures r.st.Valid() && r.st.buf == s.buf
    ensures r.Done? <==> s.size > 0
    ensures r.Done? ==> s.Contents() == r.st.Contents() + [r.value]
    ensures r.Threw? ==> r.fault == StackUnderflow && r.st == s
  {
    if s.size == 0 then Threw(StackUnderflow, s)
    else
      var t := StackState(s.buf, s.size - 1);
      assert s.Contents() == t.Contents() + [s.buf[s.size - 1]];
      Done(s.buf[s.size - 1], t)
  }

  /** Reading through `operator[]`: "index out of bounds" unless
      `0 <= i < size`; slot `i` counts from the bottom. */
  function At(s: StackState, i: int): (r: Result<int>)
    requires s.Valid()
    ensures r.Ok? <==> 0 <= i < s.size
    ensures r.Ok? ==> r.value == s.Contents()[i]
    ensures r.Err? ==> r.fault == IndexOutOfBounds
  {
    if i < 0 || i >= s.size then Err(IndexOutOfBounds) else Ok(s.buf[i])
  }

  /** Writing through `operator[]`: the same bounds check, then slot `i`
      and nothing else changes. */
  function Store(s: StackState, i: int, v: int): (r: Effect<()>)
    requires s.Valid()
    ensures r.st.Valid() && r.st.size == s.size
    ensures r.Done? <==> 0 <= i < s.size
    ensures r.Done? ==> r.st.buf == s.buf[i := v] && r.st.Contents() == s.Contents()[i := v]
    ensures r.Threw? ==> r.fault == IndexOutOfBounds && r.st == s
  {
    if i < 0 || i >= s.size then Threw(IndexOutOfBounds, s)
    else
      var t := StackState(s.buf[i := v], s.size);
      assert t.Contents() == s.Contents()[i := v];
      Done((), t)
  }

  /** `resize(delta)`: moves the top by `delta` without touching the
      buffer; throws "remove too many elements" below empty and "add too
      many elements" beyond capacity, before any change. */
  function Resize(s: StackState, delta: int): (r: Effect<()>)
    requires s.Valid()
    ensures r.st.Valid() && r.st.buf == s.buf
    ensures r.Done? <==> 0 <= s.size + delta <= s.Capacity()
    ensures r.Done? ==> r.st.size == s.size + delta
    ensures r.Threw? ==> r.st == s
    ensures r.Threw? ==> r.fault == (if delta < 0 then RemoveTooMany else AddTooMany)
  {
    var top := s.size + delta;
    if delta < 0 && top < 0 then Threw(RemoveTooMany, s)
    else if delta > 0 && top > |s.buf| then Threw(AddTooMany, s)
    else Done((), StackState(s.buf, top))
  }

  /** The unary `operator()`: "stack underflow" on an empty stack;
      otherwise the top is replaced by `fn(top)`. */
  function Apply1(s: StackState, op: Operation): (r: Effect<()>)
    requires s.Valid() && op.IsUnary()
    ensures r.st.Valid() && r.st.Capacity() == s.Capacity() && r.st.size == s.size
    ensures s.size == 0 ==> r == Threw(StackUnderflow, s)
    ensures s.size > 0 ==>
      match Unary(op, s.Contents()[s.size - 1])
      case Ok(x) =>
        r.Done? && r.st.Contents() == s.Contents()[s.size - 1 := x] && r.st.buf == s.buf[s.size - 1 := x]
      case Err(f) => r == Threw(f, s)
  {
    if s.size == 0 then Threw(StackUnderflow, s)
    else
      match Unary(op, s.buf[s.size - 1])
      case Ok(x) =>
        var t := StackState(s.buf[s.size - 1 := x], s.size);
        assert t.Contents() == s.Contents()[s.size - 1 := x];
        Done((), t)
      case Err(f) => Threw(f, s)
  }

  /** The binary `operator()`: "not two arguments for binary" below two
      elements; otherwise the top `t` is popped and the element `u` beneath
      it is replaced by `fn(t, u)`. An operation that fails does so after
      the pop, where a throwing `fn` would leave the stack. */
  function Apply2(s: StackState, op: Operation): (r: Effect<()>)
    requires s.Valid() && op.IsBinary()
    ensures r.st.Valid() && r.st.Capacity() == s.Capacity()
    ensures s.size < 2 ==> r == Threw(NotTwoArguments, s)
    ensures s.size >= 2 ==>
      var t, u := s.Contents()[s.size - 1], s.Contents()[s.size - 2];
      match Binary(op, t, u)
      case Ok(x) =>
        r.Done? && r.st.Contents() == s.Contents()[..s.size - 2] + [x] &&
        r.st == StackState(s.buf[s.size - 2 := x], s.size - 1)
      case Err(f) => r == Threw(f, StackState(s.buf, s.size - 1))
  {
    if s.size < 2 then Threw(NotTwoArguments, s)
    else
      var first := s.buf[s.size - 1];
      var popped := StackState(s.buf, s.size - 1);
      match Binary(op, first, popped.buf[popped.size - 1])
      case Ok(x) =>
        var t := StackState(popped.buf[popped.size - 1 := x], popped.size);
        assert t.Contents() == s.Contents()[..s.size - 2] + [x];
        Done((), t)
      case Err(f) => Threw(f, popped)
  }

  /** A push followed by a pop gives back the pushed value and the original
      contents. */
  lemma PushThenPop(s: StackState, v: int)
    requires s.Valid() && s.size < s.Capacity()
    ensures var p := Pop(Push(s, v).st);
      p.Done? && p.value == v && p.st.size == s.size && p.st.Contents() == s.Contents()
  {
    var t := Push(s, v).st;
    assert t.Contents() == s.Contents() + [v];
    var p := Pop(t);
    assert t.Contents() == p.st.Contents() + [p.value];
  }

  /** A successful `resize(d)` is undone exactly by `resize(-d)`, and
      `resize(0)` changes nothing. */
  lemma ResizeUndo(s: StackState, d: int)
    requires s.Valid() && Resize(s, d).Done?
    ensures Resize(Resize(s, d).st, -d) == Done((), s)
    ensures Resize(s, 0) == Done((), s)
  {
  }

  /** `resize` keeps every element below the smaller of the two sizes, and
      the slots it exposes hold what the buffer held before. */
  lemma ResizeKeeps(s: StackState, d: int, i: int)
    requires s.Valid() && Resize(s, d).Done?
    requires 0 <= i < s.size + d
    ensures Resize(s, d).st.Contents()[i] == s.buf[i]
    ensures i < s.size ==> Resize(s, d).st.Contents()[i] == s.Contents()[i]
  {
  }
}
