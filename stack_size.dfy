/**
 * The fixed-capacity operand stack of tests/stack_size.c: an array of
 * STACK_MAX values and a top index (the C code keeps a pointer; the index
 * is its distance from the base).  A failing check there prints a message
 * and calls exit(1); here that is the Exited(1) status or a missing result.
 *
 * The overflow check as written, `stackTop > stack + STACK_MAX`, lets a
 * push through when all STACK_MAX slots are taken, so that push writes one
 * slot past the array.  PushAsWritten models that check and shows the
 * write; the stack below uses the evidently intended `>=`.
 */
module StackSize {
  import opened Wrappers
  import V = Values

  const STACK_MAX: nat := 4

  /** The test's `typedef double Value`, with the payload left opaque. */
  type Value = V.Number

  /** Whether the program goes on, or has called exit with a code. */
  datatype Status = Running | Exited(code: int)

  /** What `push` does as written: store, reject, or write outside the array. */
  datatype PushOutcome = Stored(stack: seq<Value>) | Overflowed | OutOfBounds(index: nat)

  /** The overflow check of push as written: only a top past the end is rejected. */
  predicate OverflowAsWritten(top: nat)
  {
    top > STACK_MAX
  }

  /**
   * push as written: the check, then a store at the top.  The store is in
   * the array when the top is below STACK_MAX and outside it otherwise.
   */
  function PushAsWritten(s: seq<Value>, value: Value): (r: PushOutcome)
    ensures r.Stored? ==> |r.stack| == |s| + 1 && r.stack[|s|] == value
  {
    if OverflowAsWritten(|s|) then Overflowed
    else if |s| < STACK_MAX then Stored(s + [value])
    else OutOfBounds(|s|)
  }

  /**
   * The check as written admits a push that writes outside the array
   * exactly when the stack is full; the fifth push of the test is one.
   */
  lemma AsWrittenWritesPastEnd(s: seq<Value>, value: Value)
    requires |s| <= STACK_MAX
    ensures PushAsWritten(s, value).OutOfBounds? <==> |s| == STACK_MAX
    ensures |s| == STACK_MAX ==> PushAsWritten(s, value) == OutOfBounds(STACK_MAX)
  {
  }

  /** The test's four pushes fill the stack; its fifth one, as written, stores at index 4 of a 4-slot array. */
  lemma FifthPushOutOfBounds()
    ensures var four := [V.Number("1.1"), V.Number("2.2"), V.Number("3.3"), V.Number("4.4")];
      && PushAll([], four) == Some(four)
      && PushAsWritten(four, V.Number("5.5")) == OutOfBounds(4)
  {
    var four := [V.Number("1.1"), V.Number("2.2"), V.Number("3.3"), V.Number("4.4")];
    PushAllAppends([], four);
    assert [] + four == four;
  }

  /** push with the intended check: it stores exactly when a slot is free. */
  function Pushed(s: seq<Value>, value: Value): (r: Option<seq<Value>>)
    ensures r.Some? <==> |s| < STACK_MAX
  {
    if |s| >= STACK_MAX then None else Some(s + [value])
  }

  /** pop: nothing on an empty stack, otherwise the top value and the stack below it. */
  function Popped(s: seq<Value>): (r: Option<(Value, seq<Value>)>)
    ensures r.None? <==> s == []
    ensures r.Some? ==> r.value.1 + [r.value.0] == s
  {
    if s == [] then None else Some((s[|s| - 1], s[..|s| - 1]))
  }

  /** Pushes in order, stopping at the first one that overflows. */
  function PushAll(s: seq<Value>, values: seq<Value>): Option<seq<Value>>
    decreases |values|
  {
    if values == [] then Some(s)
    else match Pushed(s, values[0])
      case None => None
      case Some(t) => PushAll(t, values[1..])
  }

  /** `n` pops in order, stopping at the first one that underflows; the values popped, first first. */
  function PopAll(s: seq<Value>, n: nat): Option<(seq<Value>, seq<Value>)>
    decreases n
  {
    if n == 0 then Some(([], s))
    else match Popped(s)
      case None => None
      case Some((v, t)) =>
        match PopAll(t, n - 1)
        case None => None
        case Some((vs, u)) => Some(([v] + vs, u))
  }

  function Reverse(s: seq<Value>): (r: seq<Value>)
    ensures |r| == |s|
  {
    if s == [] then [] else [s[|s| - 1]] + Reverse(s[..|s| - 1])
  }

  /** A pop right after a push gives back the pushed value and the stack as it was. */
  lemma PushPop(s: seq<Value>, value: Value)
    requires |s| < STACK_MAX
    ensures Pushed(s, value).Some? && Popped(Pushed(s, value).value) == Some((value, s))
  {
    assert (s + [value])[..|s|] == s;
  }

  /** Pushes that fit append the values; one more than fits overflows. */
  lemma {:induction false} PushAllAppends(s: seq<Value>, values: seq<Value>)
    requires |s| <= STACK_MAX
    ensures |s| + |values| <= STACK_MAX ==> PushAll(s, values) == Some(s + values)
    ensures |s| + |values| > STACK_MAX ==> PushAll(s, values) == None
    decreases |values|
  {
    if values != [] {
      if |s| < STACK_MAX {
        assert PushAll(s, values) == PushAll(s + [values[0]], values[1..]);
        PushAllAppends(s + [values[0]], values[1..]);
        assert s + [values[0]] + values[1..] == s + values;
      } else {
        assert Pushed(s, values[0]) == None;
      }
    } else {
      assert s + values == s;
    }
  }

  /**
   * LIFO order: pushing values onto a stack and then popping as many
   * gives them back last first and leaves the stack as it was.
   */
  lemma {:induction false} LastInFirstOut(s: seq<Value>, values: seq<Value>)
    requires |s| + |values| <= STACK_MAX
    ensures PopAll(s + values, |values|) == Some((Reverse(values), s))
    decreases |values|
  {
    if values != [] {
      var n := |values|;
      var t := s + values;
      var init := values[..n - 1];
      assert t[|t| - 1] == values[n - 1];
      assert t[..|t| - 1] == s + init;
      assert Popped(t) == Some((values[n - 1], s + init));
      LastInFirstOut(s, init);
      assert PopAll(s + init, n - 1) == Some((Reverse(init), s));
      assert PopAll(t, n) == Some(([values[n - 1]] + Reverse(init), s));
      assert Reverse(values) == [values[n - 1]] + Reverse(init);
    } else {
      assert s + values == s;
    }
  }

  /** The test's VM: the stack array and the top index. */
  class Machine {
    const stack: array<Value>
    var stackTop: nat

    ghost predicate Valid()
      reads this
    {
      stack.Length == STACK_MAX && stackTop <= STACK_MAX
    }

    /** The values on the stack, bottom first. */
    ghost function Contents(): seq<Value>
      reads this, stack
      requires Valid()
    {
      stack[..stackTop]
    }

    /** The zero-initialised global `VM vm`. */
    constructor ()
      ensures Valid() && fresh(stack) && Contents() == []
    {
      stack := new Value[STACK_MAX](_ => V.Number("0"));
      stackTop := 0;
    }

    /** initVM: the top goes back to the base, so the stack is empty. */
    method InitVM()
      requires Valid()
      modifies this`stackTop
      ensures Valid() && Contents() == []
    {
      stackTop := 0;
    }

    /**
     * push with the intended overflow check: a full stack exits with code
     * 1 and is left as it was, otherwise the value is stored on top.
     */
    method Push(value: Value) returns (status: Status)
      requires Valid()
      modifies this`stackTop, stack
      ensures Valid()
      ensures status == (if Pushed(old(Contents()), value).None? then Exited(1) else Running)
      ensures Contents() == if status == Running then Pushed(old(Contents()), value).value else old(Contents())
    {
      if stackTop >= STACK_MAX {
        return Exited(1);
      }
      stack[stackTop] := value;
      stackTop := stackTop + 1;
      status := Running;
    }

    /** pop: an empty stack exits with code 1; otherwise the top value is removed and returned. */
    method Pop() returns (value: Option<Value>)
      requires Valid()
      modifies this`stackTop
      ensures Valid()
      ensures match Popped(old(Contents()))
        case None => value == None && Contents() == old(Contents())
        case Some((v, rest)) => value == Some(v) && Contents() == rest
    {
      if stackTop == 0 {
        return None;
      }
      stackTop := stackTop - 1;
      value := Some(stack[stackTop]);
    }

    /** The test's main: four pushes fill the stack and the fifth exits with code 1. */
    method OverflowTest() returns (status: Status)
      requires Valid()
      modifies this`stackTop, stack
      ensures Valid()
      ensures status == Exited(1)
      ensures Contents() == [V.Number("1.1"), V.Number("2.2"), V.Number("3.3"), V.Number("4.4")]
    {
      InitVM();
      status := Push(V.Number("1.1"));
      assert Contents() == [V.Number("1.1")];
      status := Push(V.Number("2.2"));
      assert Contents() == [V.Number("1.1"), V.Number("2.2")];
      status := Push(V.Number("3.3"));
      assert Contents() == [V.Number("1.1"), V.Number("2.2"), V.Number("3.3")];
      status := Push(V.Number("4.4"));
      assert |Contents()| == STACK_MAX;
      status := Push(V.Number("5.5"));
    }
  }
}
