/** Request sequences against an engine in a given state, each with the
    outcome the service promises for it. */
module Scenarios {
  import opened Errors
  import opened Ascii
  import opened Operations
  import opened Stack
  import opened History
  import opened App

  /** Stack [2, 10] (10 on top): divide, in any casing, peeks [10, 2],
      computes 10 // 2 and consumes both operands. */
  method DivideOnStack(engine: Calculator, name: string) returns (r: Result<int>)
    requires engine.Valid() && engine.stack.stack == [2, 10]
    requires Lower(name) == "divide"
    modifies engine.stack, engine.history
    ensures r == Ok(5) && engine.stack.stack == []
    ensures engine.history.entries == old(engine.history.entries) + [Entry(STACK, "divide", [10, 2], 5)]
  {
    LookupName(Divide);
    ghost var peeked := engine.stack.Peek(name);
    assert peeked.Ok? && peeked.value == [10, 2];
    DispatchBinary(name, 10, 2);
    assert FloorDiv(10, 2) == 5;
    r := engine.StackOperate(name);
  }

  /** Stack [0, 5] (5 on top): divide peeks [5, 0], fails on the zero
      divisor and leaves both operands and the log in place. */
  method FailedDivideKeepsOperands(engine: Calculator, name: string) returns (r: Result<int>)
    requires engine.Valid() && engine.stack.stack == [0, 5]
    requires Lower(name) == "divide"
    modifies engine.stack, engine.history
    ensures r == Err(DivisionByZero) && engine.stack.stack == [0, 5]
    ensures engine.history.entries == old(engine.history.entries)
  {
    LookupName(Divide);
    ghost var peeked := engine.stack.Peek(name);
    assert peeked.Ok? && peeked.value == [5, 0];
    DispatchBinary(name, 5, 0);
    r := engine.StackOperate(name);
  }

  /** On an empty stack, plus and a removal of one element both underflow. */
  method EmptyStackUnderflows(engine: Calculator) returns (r: Result<int>, removed: Result<int>)
    requires engine.Valid() && engine.stack.stack == []
    modifies engine.stack, engine.history
    ensures r == Err(OperandUnderflow("plus", 2, 0)) && removed == Err(Underflow(1, 0))
    ensures engine.stack.stack == [] && engine.history.entries == old(engine.history.entries)
  {
    LowerName(Plus);
    LookupName(Plus);
    assert Lower("plus") == "plus";
    r := engine.StackOperate("plus");
    removed := engine.StackRemove(Some(1));
  }

  /** A batch with a non-integer in it pushes nothing, not even its valid
      prefix. */
  method MixedPushIsAtomic(engine: Calculator) returns (r: Result<int>)
    modifies engine.stack
    ensures r == Err(InvalidArgument) && engine.stack.stack == old(engine.stack.stack)
  {
    r := engine.StackPush([IntV(3), NonInt]);
  }

  /** An INDEPENDENT entry logged before a STACK entry: the unfiltered
      history lists the STACK entry first. */
  method HistoryIsGrouped(engine: Calculator) returns (view: Result<seq<Entry>>)
    requires engine.Valid() && engine.stack.stack == [-3] && engine.history.entries == []
    modifies engine.stack, engine.history
    ensures view == Ok([Entry(STACK, "abs", [-3], 3), Entry(INDEPENDENT, "plus", [1, 2], 3)])
  {
    LowerName(Plus);
    assert Lower("plus") == "plus";
    DispatchBinary("plus", 1, 2);
    var independent := engine.IndependentCalculate("plus", [1, 2]);
    LowerName(Abs);
    LookupName(Abs);
    assert Lower("abs") == "abs";
    ghost var peeked := engine.stack.Peek("abs");
    assert peeked.Ok? && peeked.value == [-3];
    DispatchUnary("abs", -3);
    var onStack := engine.StackOperate("abs");
    GroupedNotChronological(Entry(INDEPENDENT, "plus", [1, 2], 3), Entry(STACK, "abs", [-3], 3));
    view := engine.GetHistory(None);
  }
}
