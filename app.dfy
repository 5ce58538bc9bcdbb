/** The request handlers of the calculator service, without the web layer:
    one engine owns the single stack and the single history log, and each
    handler returns `Ok(value)` or the error the service reports. */
module App {
  import opened Errors
  import opened Ascii
  import opened Operations
  import opened Stack
  import opened History

  class Calculator {
    const stack: StackManager
    const history: HistoryManager

    predicate Valid()
      reads this, history
    {
      history.Valid()
    }

    constructor ()
      ensures Valid() && fresh(stack) && fresh(history)
      ensures stack.stack == [] && history.entries == []
    {
      stack := new StackManager();
      history := new HistoryManager();
    }

    /** Evaluate on the given arguments; a success is logged as an
        INDEPENDENT entry under the lower-cased name, a failure logs
        nothing. The stack is never touched. */
    method IndependentCalculate(operation: string, arguments: seq<int>) returns (r: Result<int>)
      requires Valid()
      modifies history
      ensures Valid()
      ensures r == Dispatch(operation, arguments)
      ensures r.Ok? ==>
        history.entries == old(history.entries) + [Entry(INDEPENDENT, Lower(operation), arguments, r.value)]
      ensures r.Err? ==> history.entries == old(history.entries)
      ensures stack.stack == old(stack.stack)
    {
      var name := Lower(operation);
      DispatchCaseInsensitive(operation, arguments);
      r := Dispatch(name, arguments);
      if r.Err? {
        return;
      }
      var logged := history.Record(INDEPENDENT, name, arguments, r.value);
      assert logged.Ok?;
    }

    method StackSize() returns (n: nat)
      ensures n == |stack.stack|
    {
      n := stack.Size();
    }

    /** Push a batch and report the new size; a batch holding a non-integer
        is refused as a whole. */
    method StackPush(values: seq<Value>) returns (r: Result<int>)
      modifies stack
      ensures AllIntegers(values) ==>
        stack.stack == old(stack.stack) + Ints(values) && r == Ok(|stack.stack|)
      ensures !AllIntegers(values) ==>
        stack.stack == old(stack.stack) && r == Err(InvalidArgument)
      ensures history.entries == old(history.entries)
    {
      var pushed := stack.Push(values);
      if pushed.Err? {
        return Err(pushed.error);
      }
      var n := stack.Size();
      return Ok(n);
    }

    /** Peek the operands, evaluate, and only on success pop the operands
        and log a STACK entry. A failure leaves the stack and the log as
        they were. */
    method StackOperate(operation: string) returns (r: Result<int>)
      requires Valid()
      modifies stack, history
      ensures Valid()
      ensures var peeked := old(stack.Peek(Lower(operation)));
        && (peeked.Err? ==> r == Err(peeked.error))
        && (peeked.Ok? ==> r == Dispatch(operation, peeked.value))
      ensures r.Err? ==>
        stack.stack == old(stack.stack) && history.entries == old(history.entries)
      ensures r.Ok? ==>
        var args := old(stack.Peek(Lower(operation))).value;
        && old(stack.Peek(Lower(operation))).Ok?
        && Lookup(Lower(operation)).Some?
        && |args| == Arity(Lookup(Lower(operation)).value) <= |old(stack.stack)|
        && stack.stack == old(stack.stack)[..|old(stack.stack)| - |args|]
        && history.entries == old(history.entries) + [Entry(STACK, Lower(operation), args, r.value)]
    {
      var name := Lower(operation);
      var peeked := stack.Peek(name);
      if peeked.Err? {
        return Err(peeked.error);
      }
      var args := peeked.value;
      DispatchCaseInsensitive(operation, args);
      r := Dispatch(name, args);
      if r.Err? {
        return;
      }
      // The peek made sure the stack holds at least |args| elements.
      var popped := stack.Pop(|args|);
      assert popped.Ok?;
      var logged := history.Record(STACK, name, args, r.value);
      assert logged.Ok?;
    }

    /** Remove `count` elements (None: the count did not parse). A count
        above the size is refused; otherwise the new size is reported. */
    method StackRemove(count: Option<int>) returns (r: Result<int>)
      modifies stack
      ensures count.None? ==> r == Err(InvalidCount) && stack.stack == old(stack.stack)
      ensures count.Some? && count.value > |old(stack.stack)| ==>
        r == Err(Underflow(count.value, |old(stack.stack)|)) && stack.stack == old(stack.stack)
      ensures count.Some? && 0 <= count.value <= |old(stack.stack)| ==>
        stack.stack == old(stack.stack)[..|old(stack.stack)| - count.value] && r == Ok(|stack.stack|)
      ensures count.Some? && count.value < 0 ==>
        stack.stack == old(stack.stack) && r == Ok(|stack.stack|)
      ensures history.entries == old(history.entries)
    {
      if count.None? {
        return Err(InvalidCount);
      }
      var c := count.value;
      var size := stack.Size();
      if size < c {
        return Err(Underflow(c, size));
      }
      var popped := stack.Pop(c);
      assert popped.Ok?;
      size := stack.Size();
      return Ok(size);
    }

    method GetHistory(flavor: Option<string>) returns (r: Result<seq<Entry>>)
      ensures r == history.Get(flavor)
    {
      r := history.Get(flavor);
    }
  }
}
