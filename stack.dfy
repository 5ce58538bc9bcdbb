/** The LIFO stack manager: a list of integers whose end is the top, with a
    batch push that validates before it appends, a pop with an underflow
    check, and a non-destructive peek that hands an operation its operands. */
module Stack {
  import opened Errors
  import opened Ascii
  import opened Operations

  /** A value in a push request: push accepts only integers. */
  datatype Value = IntV(n: int) | NonInt

  predicate AllIntegers(values: seq<Value>) {
    forall i :: 0 <= i < |values| ==> values[i].IntV?
  }

  /** The integers of a batch that passed validation, in the order given. */
  function Ints(values: seq<Value>): (r: seq<int>)
    requires AllIntegers(values)
    ensures |r| == |values|
    ensures forall i :: 0 <= i < |values| ==> r[i] == values[i].n
  {
    if values == [] then [] else [values[0].n] + Ints(values[1..])
  }

  /** Python's `[::-1]`. */
  function Reverse(s: seq<int>): (r: seq<int>)
    ensures |r| == |s|
    ensures forall k :: 0 <= k < |s| ==> r[k] == s[|s| - 1 - k]
  {
    if s == [] then [] else [s[|s| - 1]] + Reverse(s[..|s| - 1])
  }

  class StackManager {
    /** The stack; its last element is the top. */
    var stack: seq<int>

    constructor ()
      ensures stack == []
    {
      stack := [];
    }

    /** Push a batch: if any value is not an integer nothing is pushed;
        otherwise the values are appended in order, the last on top. */
    method Push(values: seq<Value>) returns (r: Result<()>)
      modifies this
      ensures AllIntegers(values) ==> r == Ok(()) && stack == old(stack) + Ints(values)
      ensures !AllIntegers(values) ==> r == Err(InvalidArgument) && stack == old(stack)
    {
      if !AllIntegers(values) {
        return Err(InvalidArgument);
      }
      stack := stack + Ints(values);
      return Ok(());
    }

    /** Pop `count` elements from the top, one at a time. A count above the
        size is refused; a negative count removes nothing. */
    method Pop(count: int) returns (r: Result<()>)
      modifies this
      ensures count > |old(stack)| ==> r == Err(Underflow(count, |old(stack)|)) && stack == old(stack)
      ensures 0 <= count <= |old(stack)| ==> r == Ok(()) && stack == old(stack)[..|old(stack)| - count]
      ensures count < 0 ==> r == Ok(()) && stack == old(stack)
    {
      if count > |stack| {
        return Err(Underflow(count, |stack|));
      }
      var i := 0;
      while i < count
        invariant 0 <= i && (count >= 0 ==> i <= count) && (count < 0 ==> i == 0)
        invariant |old(stack)| >= i
        invariant stack == old(stack)[..|old(stack)| - i]
      {
        stack := stack[..|stack| - 1];
        i := i + 1;
      }
      return Ok(());
    }

    function Size(): (n: nat)
      reads this
      ensures n == |stack|
    {
      |stack|
    }

    /** The operands of `opName` without removing them: the top arity(op)
        elements, topmost first. Fails on an unknown name or a short stack. */
    function Peek(opName: string): (r: Result<seq<int>>)
      reads this
      ensures Lookup(Lower(opName)).None? ==> r == Err(UnknownOperation(Lower(opName)))
      ensures Lookup(Lower(opName)).Some? ==>
        var k := Arity(Lookup(Lower(opName)).value);
        && (|stack| < k ==> r == Err(OperandUnderflow(Lower(opName), k, |stack|)))
        && (|stack| >= k ==>
              && r.Ok? && |r.value| == k
              && forall i :: 0 <= i < k ==> r.value[i] == stack[|stack| - 1 - i])
    {
      var name := Lower(opName);
      match Lookup(name)
      case None => Err(UnknownOperation(name))
      case Some(op) =>
        var required := Arity(op);
        if |stack| < required then Err(OperandUnderflow(name, required, |stack|))
        else Ok(Reverse(stack[|stack| - required..]))
    }
  }
}
