# Calculator service engine in Dafny

This project models the stateful evaluation engine of a small calculator
service, without its web layer. The engine has four parts:

- **Operation registry and dispatcher** (`Operations`). It is a closed table
  of seven integer operations: plus, minus, times, divide, pow, abs and fact.
  Each has a fixed arity. The dispatcher lower-cases the requested name,
  rejects an unknown name, rejects too few or too many arguments, and
  otherwise applies the operation. Divide (Python floor division) and fact can
  fail on their input.
- **Stack manager** (`Stack.StackManager`). It holds a LIFO list of integers
  whose end is the top. Push takes a batch and validates all of it before
  appending anything. Pop checks for underflow. Peek is non-destructive: it
  returns an operation's operands, topmost first.
- **History manager** (`History.HistoryManager`). It is an append-only log of
  evaluations, each tagged with a flavor, STACK or INDEPENDENT. It is queried
  by flavor. With no flavor, the query returns the STACK entries and then the
  INDEPENDENT entries. This is a grouped view, not a merge by time.
- **Request handlers** (`App.Calculator`). One engine object owns the single
  stack and the single log. Its methods are the bodies of the service's
  handlers, and each returns `Ok(value)` or an error kind. The central promise
  is peek, then evaluate, then pop only on success: a failed stack operation
  consumes no operands and logs nothing.

`Errors` holds the `Option`/`Result` types and the error kinds. `Ascii` holds
the case folding applied to operation names. `Scenarios` holds the service's
worked request sequences, stated over an engine in a given state.

`Dispatch`, `Peek` and `Get` are functions. So the same inputs always give
the same result, and none of them can change the stack or the log. The
handlers' `modifies` clauses name the only objects each one may change. For
example, `IndependentCalculate` may change the history but never the stack.

Every ValueError the source raises becomes an `Err` carrying an `Error` kind.
Message strings are not modelled. The values a message mentions, such as the
lower-cased name or the requested and available counts, are kept as fields.

## Model

| member | source | states |
|---|---|---|
| Ascii.Lower | calculator/operations.py:45 | the result has the input's length and each character is the input's character with A-Z folded to a-z |
| Ascii.LowerIdempotent | app.py:23 | lower-casing an already lower-cased name changes nothing, so the handler's, the peek's and the dispatcher's repeated `lower()` calls agree |
| Operations.Name | calculator/operations.py:33-39 | every registry key is a non-empty word of lower-case letters |
| Operations.Arity | calculator/operations.py:32-40 | abs and fact take exactly one argument; plus, minus, times, divide and pow take two |
| Operations.Lookup | calculator/operations.py:47-50 | a found operation is the one registered under exactly that key; no operation answers to a name that is not a key |
| Operations.LookupName | calculator/operations.py:32-40 | every registry key finds its own operation, so the seven keys are distinct |
| Operations.FloorDiv | calculator/operations.py:17 | Python `//`: q*b <= a < q*b + b for b > 0 and q*b + b < a <= q*b for b < 0, so the remainder has the sign of b |
| Operations.FloorDivUnique | calculator/operations.py:17 | any quotient within those bounds is FloorDiv's, so the bounds define floor division |
| Operations.Examples | calculator/operations.py:14-28 | divide(-7,2) = divide(7,-2) = -4, divide(7,2) = divide(-7,-2) = 3, fact(5) = 120 |
| Operations.Power | calculator/operations.py:19-20 | `**` with a non-negative exponent: an exponent of 0 gives 1 (also for base 0), an exponent of 1 gives the base, and base 0 with a positive exponent gives 0; with PowerAdd this fixes a^b for every b |
| Operations.PowerAdd | calculator/operations.py:19-20 | the integer power obeys a^(m+n) = a^m * a^n |
| Operations.Factorial | calculator/operations.py:28 | the factorial of n is at least 1 and at least n |
| Operations.FactorialIsProduct | calculator/operations.py:28 | the factorial equals the product 1 * 2 * ... * n, as `math.factorial` computes it |
| Operations.Apply | calculator/operations.py:5-28 | an operation fails exactly on divide by 0, on fact of a negative number, or on pow with a negative exponent, each with its own error kind; abs is non-negative and equals a or -a; fact is at least 1 |
| Operations.Dispatch | calculator/operations.py:44-57 | after lower-casing: an unknown name gives UnknownOperation; a registered one gives NotEnoughArguments for a short list, TooManyArguments for a long one, and the operation's own result for an exact count |
| Operations.DispatchCaseInsensitive | calculator/operations.py:45-48 | the dispatcher gives the same result for any casing of a name |
| Operations.DispatchSucceeds | calculator/operations.py:50-57 | a success comes from a registered operation given exactly its arity of arguments |
| Operations.DispatchName | calculator/operations.py:50-57 | a registry key reaches its operation for an exact count and the matching arity error otherwise |
| Operations.DispatchBinary | calculator/operations.py:5-20 | for any casing, plus, minus and times give a+b, a-b and a*b; divide gives floor(a/b), or DivisionByZero when b = 0; pow gives a^b for b >= 0; the first argument is the left operand |
| Operations.DispatchUnary | calculator/operations.py:22-28 | for any casing, abs gives abs(a); fact of a negative number is NegativeFactorial, fact(0) = 1 and fact(n) = n * fact(n-1) |
| Operations.DispatchExamples | calculator/operations.py:44-57 | "Divide" on [-7, 2] gives -4 and "FACT" on [5] gives 120 |
| Operations.DispatchErrorExamples | calculator/operations.py:14-57 | "divide" on [5, 0] is DivisionByZero and "sqrt" is UnknownOperation("sqrt") |
| Operations.ArityErrorExamples | calculator/operations.py:52-55 | plus on one argument is NotEnoughArguments and abs on two is TooManyArguments |
| Stack.Ints | calculator/stack.py:9-11 | a validated batch contributes its integers one for one, in the order given |
| Stack.Reverse | calculator/stack.py:44 | `[::-1]`: same length, and element k is element len-1-k of the input |
| Stack.StackManager.constructor | calculator/stack.py:4-5 | a new stack is empty |
| Stack.StackManager.Push | calculator/stack.py:7-11 | a batch with a non-integer is refused with the stack unchanged; otherwise the stack becomes old + values, the last value on top |
| Stack.StackManager.Pop | calculator/stack.py:13-20 | count > size is Underflow with the stack unchanged; 0 <= count <= size leaves old[..size-count]; a negative count removes nothing and does not fail |
| Stack.StackManager.Size | calculator/stack.py:22-24 | the size is the length of the stack |
| Stack.StackManager.Peek | calculator/stack.py:26-44 | an unknown name is UnknownOperation; a stack shorter than the arity is OperandUnderflow with the lower-cased name, the arity and the size; otherwise exactly arity elements, the top one first (element i is stack[size-1-i]); the stack is only read |
| History.Filter | calculator/history.py:28 | the view of flavor f has only entries of flavor f and holds exactly the entries of the log with that flavor |
| History.FilterSubsequence | calculator/history.py:28 | a flavor's view is a subsequence of the log, so it keeps insertion order |
| History.FilterCount | calculator/history.py:28 | a flavor's view holds each entry of that flavor exactly as many times as the log does, and no entry of another flavor |
| History.FilterAppend | calculator/history.py:16-28 | logging an entry appends it to its flavor's view and leaves the other view as it was |
| History.FilterPartition | calculator/history.py:20-23 | in a log whose flavors are all valid, the STACK and INDEPENDENT views together hold every entry exactly once (as multisets) |
| History.AllValidAppend | calculator/history.py:7-16 | appending an entry with a valid flavor keeps every logged flavor valid |
| History.GroupedNotChronological | calculator/history.py:20-24 | an INDEPENDENT entry logged before a STACK entry comes after it in the unfiltered view |
| History.HistoryManager.constructor | calculator/history.py:2-3 | a new log is empty |
| History.HistoryManager.Record | calculator/history.py:5-16 | a flavor other than STACK or INDEPENDENT is InvalidFlavor with the log unchanged; otherwise exactly one entry with the given fields is appended; the all-flavors-valid invariant is kept |
| History.HistoryManager.Get | calculator/history.py:18-28 | no flavor gives the STACK view followed by the INDEPENDENT view, which is a permutation of the whole log when the invariant holds; an invalid flavor is InvalidFlavor; a valid flavor gives its view `Filter(entries, flavor)`, which keeps every occurrence of every entry of that flavor in logging order (a subsequence of the log); nothing is modified |
| App.Calculator.constructor | app.py:10-11 | the engine starts with an empty stack and an empty log |
| App.Calculator.IndependentCalculate | app.py:20-30 | the result is the dispatcher's on the given arguments; a success appends one INDEPENDENT entry with the lower-cased name; a failure logs nothing; the stack is untouched |
| App.Calculator.StackSize | app.py:34-35 | returns the stack's length |
| App.Calculator.StackPush | app.py:39-43 | a valid batch is appended and the new size returned; an invalid batch is refused with the stack unchanged; the log is untouched |
| App.Calculator.StackOperate | app.py:47-56 | a failed peek or a failed evaluation returns its error with the stack and the log unchanged; a success pops exactly the arity's top elements (the pop never underflows) and appends one STACK entry with the lower-cased name, the peeked operands and the result |
| App.Calculator.StackRemove | app.py:60-72 | an unparsable count is InvalidCount; count > size is Underflow with the stack unchanged; otherwise the top count elements (none for a negative count) are removed and the new size returned; the log is untouched |
| App.Calculator.GetHistory | app.py:76-82 | returns the history manager's view for the flavor, or its error |
| Scenarios.DivideOnStack | app.py:47-56 | with stack [2, 10], divide in any casing returns 10 // 2 = 5, empties the stack and logs STACK divide [10, 2] = 5 |
| Scenarios.FailedDivideKeepsOperands | app.py:47-56 | with stack [0, 5], divide in any casing peeks [5, 0], fails with DivisionByZero and keeps the stack and the log |
| Scenarios.EmptyStackUnderflows | app.py:47-72 | on an empty stack, plus gives OperandUnderflow("plus", 2, 0) and a removal of one gives Underflow(1, 0), and neither changes anything |
| Scenarios.MixedPushIsAtomic | app.py:39-43 | pushing [3, non-integer] is refused and leaves the stack as it was |
| Scenarios.HistoryIsGrouped | calculator/history.py:20-24 | an independent plus and then a stack abs are listed abs first in the unfiltered history |

## Left out

- The web layer is left out: routing, reading the JSON body and the query string, status codes, the health endpoint and the response wrapper in `calculator/utils.py`. The handlers take their inputs as parameters and return a `Result`.
- Concurrency is left out. The source shares two module-level objects across request threads without locking. The model has one sequential owner, the `Calculator` object.
- Operations.Apply: pow with a negative exponent does not give an integer in the source, and the model returns `Err(NonIntegerResult)` for every such request. The two cases differ in the source:
  - Base other than 0, with a base and an exponent small enough to convert to a float: the source returns a Python float. A stack request pops its operands and logs the float, and an independent request logs the float too. In the model the operands stay on the stack and nothing is logged.
  - Base other than 0, with a base or an exponent too large to convert to a float (such as `(10**400) ** -1` or `2 ** -(10**400)`): Python raises OverflowError. That is not a ValueError, so the handlers do not catch it and the framework answers with a server error. The pop and the record are never reached, so the operands stay on the stack and nothing is logged, as in the model.
  - Base 0: with an exponent a float can hold, Python raises ZeroDivisionError; with a larger one, such as `0 ** -(10**400)`, it raises OverflowError. The handlers catch only ValueError, so the framework answers with a server error. The pop and the record are never reached, so the operands stay on the stack and nothing is logged, as in the model.
- Python's dynamic typing is left out. The independent arguments are `seq<int>`, because the source never checks their types. Stack input is `Value = IntV(int) | NonInt`, and `bool` passing as an integer is not modelled.
- App.Calculator.StackRemove: the `int(...)` parse of the count is an input, `None` for a count that does not parse. The default count of 0 for a missing parameter belongs to the caller.
- App.Calculator.StackPush: the source does not catch push's ValueError, so the web framework turns it into a server error. The model returns `Err(InvalidArgument)`.
- Ascii.Lower: Python's `str.lower` also folds non-ASCII letters. No non-ASCII name lowers to a registry key, so lookups agree with the model. What differs is the name reported in an unknown-operation error.
- Error message texts are not modelled; error kinds and the values they mention are.

Three behaviours of the code that a reader might not expect, all modelled
as the code has them:

- A negative removal count is accepted and removes nothing, rather than being an invalid argument.
- Only evaluations are logged. Push and remove write no history entry.
- Stacks in this README are written bottom first. So for the stack [0, 5], 5 is on top, peek gives [5, 0], and divide fails because the divisor is 0.
