/** The operation registry and dispatcher: a closed table of seven integer
    operations, each with a fixed arity, and a dispatcher that normalises
    the name, checks the argument count and applies the operation. */
module Operations {
  import opened Errors
  import opened Ascii

  datatype Op = Plus | Minus | Times | Divide | Pow | Abs | Fact

  /** The registry key of each operation: a non-empty word of lower-case
      letters. */
  function Name(op: Op): (s: string)
    ensures s != []
    ensures forall i :: 0 <= i < |s| ==> 'a' <= s[i] <= 'z'
  {
    match op
    case Plus => "plus"
    case Minus => "minus"
    case Times => "times"
    case Divide => "divide"
    case Pow => "pow"
    case Abs => "abs"
    case Fact => "fact"
  }

  /** The number of arguments each operation takes: the unary ones are
      abs and fact, every other operation is binary. */
  function Arity(op: Op): (n: nat)
    ensures n == 1 <==> op == Abs || op == Fact
    ensures n == 2 <==> !(op == Abs || op == Fact)
  {
    match op
    case Abs | Fact => 1
    case _ => 2
  }

  /** Exact-key lookup in the registry (no case folding here). */
  function Lookup(name: string): (r: Option<Op>)
    ensures r.Some? ==> Name(r.value) == name
    ensures r.None? ==> forall op :: Name(op) != name
  {
    if name == "plus" then Some(Plus)
    else if name == "minus" then Some(Minus)
    else if name == "times" then Some(Times)
    else if name == "divide" then Some(Divide)
    else if name == "pow" then Some(Pow)
    else if name == "abs" then Some(Abs)
    else if name == "fact" then Some(Fact)
    else None
  }

  /** Every registered name finds its own operation: the keys are distinct. */
  lemma LookupName(op: Op)
    ensures Lookup(Name(op)) == Some(op)
  {
  }

  // --- Arithmetic ---

  /** Python's `//`: the quotient rounded towards negative infinity, so the
      remainder a - q * b has the sign of b (Dafny's own `/` is Euclidean). */
  function FloorDiv(a: int, b: int): (q: int)
    requires b != 0
    ensures b > 0 ==> q * b <= a < q * b + b
    ensures b < 0 ==> q * b + b < a <= q * b
  {
    if b > 0 then a / b else (-a) / (-b)
  }

  /** The bounds in FloorDiv's contract determine the quotient. */
  lemma FloorDivUnique(a: int, b: int, q: int)
    requires b != 0
    requires b > 0 ==> q * b <= a < q * b + b
    requires b < 0 ==> q * b + b < a <= q * b
    ensures q == FloorDiv(a, b)
  {
    var f := FloorDiv(a, b);
    if q < f {
      MulMono(f - q, b);
    } else if q > f {
      MulMono(q - f, b);
    }
  }

  /** Multiplying by at least one keeps the sign and does not shrink |b|. */
  lemma MulMono(k: int, b: int)
    requires k >= 1
    ensures b > 0 ==> k * b >= b
    ensures b < 0 ==> k * b <= b
  {
  }

  /** Python's `**` for a non-negative exponent (0 ** 0 is 1). */
  function Power(a: int, b: nat): (p: int)
    ensures b == 0 ==> p == 1
    ensures b == 1 ==> p == a
    ensures a == 0 && b > 0 ==> p == 0
  {
    if b == 0 then 1 else a * Power(a, b - 1)
  }

  /** Exponents add when powers of the same base multiply. */
  lemma {:induction false} PowerAdd(a: int, m: nat, n: nat)
    ensures Power(a, m + n) == Power(a, m) * Power(a, n)
  {
    if m > 0 {
      PowerAdd(a, m - 1, n);
      MulAssoc(a, Power(a, m - 1), Power(a, n));
    }
  }

  lemma MulAssoc(a: int, x: int, y: int)
    ensures a * (x * y) == (a * x) * y
  {
  }

  function Factorial(n: nat): (r: nat)
    ensures r >= 1
    ensures r >= n
  {
    if n == 0 then 1 else n * Factorial(n - 1)
  }

  /** lo * (lo + 1) * ... * hi, the empty product being 1. */
  function Product(lo: int, hi: int): (p: int)
    decreases hi - lo
  {
    if lo > hi then 1 else lo * Product(lo + 1, hi)
  }

  lemma {:induction false} ProductExtend(lo: int, hi: int)
    requires lo <= hi + 1
    ensures Product(lo, hi + 1) == Product(lo, hi) * (hi + 1)
    decreases hi - lo
  {
    if lo <= hi {
      ProductExtend(lo + 1, hi);
    }
  }

  /** The factorial is the product of 1 .. n. */
  lemma {:induction false} FactorialIsProduct(n: nat)
    ensures Factorial(n) == Product(1, n)
  {
    if n > 0 {
      FactorialIsProduct(n - 1);
      ProductExtend(1, n - 1);
    }
  }

  /** The `op_*` functions. Each one reads only its first Arity(op)
      arguments; divide, fact and pow are the ones that can fail. */
  function Apply(op: Op, args: seq<int>): (r: Result<int>)
    requires |args| >= Arity(op)
    ensures r.Err? <==>
      (op == Divide && args[1] == 0) || (op == Fact && args[0] < 0) || (op == Pow && args[1] < 0)
    ensures r.Err? && op == Divide ==> r.error == DivisionByZero
    ensures r.Err? && op == Fact ==> r.error == NegativeFactorial
    ensures r.Err? && op == Pow ==> r.error == NonIntegerResult
    ensures r.Ok? && op == Abs ==> r.value >= 0 && (r.value == args[0] || r.value == -args[0])
    ensures r.Ok? && op == Fact ==> r.value >= 1 && r.value >= args[0]
  {
    match op
    case Plus => Ok(args[0] + args[1])
    case Minus => Ok(args[0] - args[1])
    case Times => Ok(args[0] * args[1])
    case Divide => if args[1] == 0 then Err(DivisionByZero) else Ok(FloorDiv(args[0], args[1]))
    case Pow => if args[1] < 0 then Err(NonIntegerResult) else Ok(Power(args[0], args[1]))
    case Abs => Ok(if args[0] < 0 then -args[0] else args[0])
    case Fact => if args[0] < 0 then Err(NegativeFactorial) else Ok(Factorial(args[0]))
  }

  /** `perform_operation`: lower-case the name, reject an unknown name, then
      a short and then a long argument list, and otherwise apply. */
  function Dispatch(opName: string, args: seq<int>): (r: Result<int>)
    ensures Lookup(Lower(opName)).None? ==> r == Err(UnknownOperation(Lower(opName)))
    ensures Lookup(Lower(opName)).Some? ==>
      var op := Lookup(Lower(opName)).value;
      && (|args| < Arity(op) ==> r == Err(NotEnoughArguments(Name(op))))
      && (|args| > Arity(op) ==> r == Err(TooManyArguments(Name(op))))
      && (|args| == Arity(op) ==> r == Apply(op, args))
  {
    var name := Lower(opName);
    match Lookup(name)
    case None => Err(UnknownOperation(name))
    case Some(op) =>
      if |args| < Arity(op) then Err(NotEnoughArguments(name))
      else if |args| > Arity(op) then Err(TooManyArguments(name))
      else Apply(op, args)
  }

  /** The dispatcher does not see the case of the name it is given. */
  lemma DispatchCaseInsensitive(opName: string, args: seq<int>)
    ensures Dispatch(opName, args) == Dispatch(Lower(opName), args)
  {
    LowerIdempotent(opName);
  }

  /** Only an exact argument count reaches the operation, and a success
      comes from a registered operation. */
  lemma DispatchSucceeds(opName: string, args: seq<int>)
    requires Dispatch(opName, args).Ok?
    ensures Lookup(Lower(opName)).Some?
    ensures var op := Lookup(Lower(opName)).value;
      |args| == Arity(op) && Dispatch(opName, args) == Apply(op, args)
  {
  }

  /** The registry keys are already in lower case. */
  lemma LowerName(op: Op)
    ensures Lower(Name(op)) == Name(op)
  {
    var s := Name(op);
    assert forall i :: 0 <= i < |s| ==> !IsUpper(s[i]);
    LowerOfLower(s);
  }

  /** A registered name, given as written in the registry, reaches its
      own operation once the argument count matches. */
  lemma DispatchName(op: Op, args: seq<int>)
    ensures |args| == Arity(op) ==> Dispatch(Name(op), args) == Apply(op, args)
    ensures |args| < Arity(op) ==> Dispatch(Name(op), args) == Err(NotEnoughArguments(Name(op)))
    ensures |args| > Arity(op) ==> Dispatch(Name(op), args) == Err(TooManyArguments(Name(op)))
  {
    LowerName(op);
  }

  /** The binary operations take their arguments in the order given (the
      first argument is the left operand), whatever the case of the name. */
  lemma DispatchBinary(opName: string, a: int, b: int)
    ensures Lower(opName) == "plus" ==> Dispatch(opName, [a, b]) == Ok(a + b)
    ensures Lower(opName) == "minus" ==> Dispatch(opName, [a, b]) == Ok(a - b)
    ensures Lower(opName) == "times" ==> Dispatch(opName, [a, b]) == Ok(a * b)
    ensures Lower(opName) == "divide" && b != 0 ==> Dispatch(opName, [a, b]) == Ok(FloorDiv(a, b))
    ensures Lower(opName) == "divide" && b == 0 ==> Dispatch(opName, [a, b]) == Err(DivisionByZero)
    ensures Lower(opName) == "pow" && b >= 0 ==> Dispatch(opName, [a, b]) == Ok(Power(a, b))
  {
  }

  /** The unary operations, with the factorial's error and its recurrence. */
  lemma DispatchUnary(opName: string, a: int)
    ensures Lower(opName) == "abs" ==> Dispatch(opName, [a]) == Ok(if a < 0 then -a else a)
    ensures Lower(opName) == "fact" && a < 0 ==> Dispatch(opName, [a]) == Err(NegativeFactorial)
    ensures Lower(opName) == "fact" && a == 0 ==> Dispatch(opName, [a]) == Ok(1)
    ensures Lower(opName) == "fact" && a > 0 ==> Dispatch(opName, [a]) == Ok(a * Factorial(a - 1))
  {
  }

  /** Worked values of the floor division and the factorial. */
  lemma Examples()
    ensures FloorDiv(-7, 2) == -4 && FloorDiv(7, -2) == -4
    ensures FloorDiv(7, 2) == 3 && FloorDiv(-7, -2) == 3
    ensures Factorial(5) == 120
  {
    FloorDivUnique(-7, 2, -4);
    FloorDivUnique(7, -2, -4);
    FloorDivUnique(7, 2, 3);
    FloorDivUnique(-7, -2, 3);
  }

  /** Worked requests that succeed, one with an upper-case name. */
  lemma DispatchExamples()
    ensures Dispatch("Divide", [-7, 2]) == Ok(-4)
    ensures Dispatch("FACT", [5]) == Ok(120)
  {
    Examples();
    assert Lower("Divide") == "divide";
    DispatchBinary("Divide", -7, 2);
    assert Lower("FACT") == "fact";
    DispatchUnary("FACT", 5);
  }

  /** Worked requests that fail: a zero divisor and an unknown name. */
  lemma DispatchErrorExamples()
    ensures Dispatch("divide", [5, 0]) == Err(DivisionByZero)
    ensures Dispatch("sqrt", [4]) == Err(UnknownOperation("sqrt"))
  {
    assert Dispatch("divide", [5, 0]) == Err(DivisionByZero) by {
      LowerOfLower("divide");
      DispatchBinary("divide", 5, 0);
    }
    assert Lookup("sqrt") == None;
    LowerOfLower("sqrt");
  }

  /** Worked requests with argument lists of the wrong length. */
  lemma ArityErrorExamples()
    ensures Dispatch("plus", [1]) == Err(NotEnoughArguments("plus"))
    ensures Dispatch("abs", [1, 2]) == Err(TooManyArguments("abs"))
  {
    DispatchName(Plus, [1]);
    DispatchName(Abs, [1, 2]);
  }
}
