# Three-address flattening of Python function bodies

The modelled program is a Python AST pass, `NestedFunctionTransformer`. Inside a
function definition it rewrites every `return` and every assignment whose value is a
nested operation (unary operator, binary operator, call, and for `return` also a
tuple), so that each operation gets its own assignment to a fresh temporary `v0`,
`v1`, ... The temporary counter restarts at 0 for each function. For example,
`return baz(-a, c**(a - b) + d, k=A + 123)` becomes

    v0 = -a
    v1 = a - b
    v2 = c ** v1
    v3 = v2 + d
    v4 = baz(v0, v3, k=A + 123)
    return v4

The project has seven modules:

- `Ast` (ast.dfy) holds the fragment of the Python AST the pass inspects. Every node
  kind it does not inspect is `OtherExpr` or `OtherStmt`.
- `TempNames` (temp_names.dfy) holds the temporary names `v<decimal>` and proves them
  distinct.
- `Lowering` (lowering.dfy) is the pure reference definition of the pass. The counter
  is threaded as a value. It also carries the structural theorems: how many
  temporaries are used, in which order they are bound, that they are fresh, that
  simple inputs come out in three-address form, and how statements and whole bodies
  are rewritten.
- `Transformer` (transformer.dfy) is the class itself. Its field `variableCounter` is
  updated in place. Every method is proved to compute the corresponding `Lowering`
  function. `VisitFunctionDef` overwrites the `body` of a `FunctionDef` object.
- `Semantics` (semantics.dfy) holds a left-to-right evaluator. The meaning of
  operators, calls and other nodes is a parameter. Every operator application, call
  and other expression node evaluated is recorded in a trace; a statement the pass
  does not inspect records nothing, its effect being just its new environment.
  The main theorem (`FunctionSound`) says that the rewritten body
  does the same operations in the same order, raises exactly when the original
  raises, and returns the same value. It holds under three stated hypotheses, and two
  counterexample lemmas show that the first two are needed. In the model, evaluating
  a call or an operator yields a value and never rebinds a variable; Python code can
  (`global`, `nonlocal`, an `__add__` that rebinds a global), and then the theorem
  does not apply (see "## Left out").
- `Scenarios` (scenarios.dfy) holds the two example functions of the program's own
  driver, `foo` and `bar`, with their exact rewritten bodies.
- `Wrappers` (wrappers.dfy) holds `Option`.

Things the code does that a reader might not expect:

- A call-argument or tuple element that is itself a tuple is kept as it is, not
  flattened (`Lowering.TupleArgumentKept`).
- An assignment whose value is a tuple is kept (`Lowering.TupleAssignKept`).
- The value left in the final statement is a temporary for operations. It is the
  original node for names, constants and other nodes, and a tuple of flattened
  elements for tuples (`Lowering.FlattenResult`).

## Model

| member | source | states |
|---|---|---|
| TempNames.DecimalShape | main.py:9 | the decimal rendering of the counter is non-empty and all digits; it has one digit exactly for values below 10 |
| TempNames.TempNameIsTemp | main.py:9 | every generated name has the shape `v<digits>` |
| TempNames.DecimalInjective | main.py:9 | two counters get the same decimal rendering exactly when they are equal |
| TempNames.TempNameInjective | main.py:9-10 | distinct counter values give distinct temporaries, and equal ones give the same |
| Transformer.NestedFunctionTransformer.constructor | main.py:5-6 | a new transformer starts with counter 0 |
| Transformer.NestedFunctionTransformer.NewVariable | main.py:8-11 | returns `v<old counter>` and increments the counter by one |
| Transformer.NestedFunctionTransformer.ExtractNestedOperations | main.py:42-92 | the assignments, the value and the final counter are those of `Lowering.Flatten` from the counter on entry |
| Transformer.NestedFunctionTransformer.ExtractNestedList | main.py:69-76 | the loop over call arguments or tuple elements computes `Lowering.FlattenArgs` from the counter on entry |
| Transformer.NestedFunctionTransformer.VisitReturn | main.py:26-32 | the result and the new counter are those of `Lowering.VisitReturn` |
| Transformer.NestedFunctionTransformer.VisitAssign | main.py:34-40 | the result and the new counter are those of `Lowering.VisitAssign` |
| Transformer.NestedFunctionTransformer.Visit | main.py:18 | dispatches a statement of a function body; the result is that of `Lowering.Visit` |
| Transformer.NestedFunctionTransformer.VisitFunctionDef | main.py:13-24 | returns the node it was given, whose body is now `Lowering.RewriteFunction` of the old body (counter reset to 0, list results spliced in, single statements appended), and leaves the counter at the number of temporaries used |
| Lowering.Flatten | main.py:42-92 | the counter advances by exactly the number of emitted assignments, and the emitted assignments bind `v<n>`, `v<n+1>`, ... in order |
| Lowering.FlattenArgs | main.py:69-76 | same counter and numbering facts for a list of arguments or elements; one output value per input element |
| Lowering.OperationCount | main.py:44-80 | every operation node counts at least one temporary |
| Lowering.FlattenCount | main.py:44-92 | an expression uses exactly one temporary per operation node reached through operands, arguments and tuple elements |
| Lowering.FlattenArgsCount | main.py:69-76 | a list uses one temporary per operation node in its operation elements |
| Lowering.OperationEmits | main.py:44-80 | an operation always emits at least one assignment, and the counter advances past the value it started from |
| Lowering.FlattenResult | main.py:42-92 | an operation is replaced by the temporary bound by the last emitted assignment, whose right-hand side is an operation of the same kind; a tuple keeps its length and ctx; any other node is returned unchanged with no assignments |
| Lowering.UnaryOpUniform | main.py:44-56 | both branches of the unary case amount to flattening the operand and binding one more temporary to the operator applied to the result |
| Lowering.BinOpOrder | main.py:57-66 | the left operand's assignments come first, then the right operand's (flattened from the counter the left one left), then the binding of the operation to `v<b.next>`, the highest temporary; the counter ends one past it |
| Lowering.OperationValue | main.py:51 | an operation flattened from counter `n` is replaced by `v<n + count - 1>`, where count is its number of operation nodes |
| Lowering.FlattenArgsValues | main.py:69-76 | each operation argument is replaced by the temporary its flattening ends with, counted from the operations before it; other arguments are kept as they are |
| Lowering.CallShape | main.py:67-80 | a call binds one temporary to a call of the same `func` and keywords over the flattened arguments, after the arguments' assignments |
| Lowering.TupleShape | main.py:81-91 | a tuple emits only its elements' assignments and keeps its ctx |
| Lowering.FlattenFresh | main.py:8-11 | the emitted temporaries are pairwise distinct and differ from every temporary bound before the counter value on entry |
| Lowering.ThreeAddressForm | main.py:42-92 | for inputs built only of names, constants and operations (a call's function and keyword values aside), each emitted right-hand side is one operation over names and constants, and the final value is a name or a constant |
| Lowering.ThreeAddressFormArgs | main.py:69-76 | the list version of the three-address result |
| Lowering.TupleThreeAddressForm | main.py:81-91 | a tuple of simple elements yields single operations and a tuple of atoms |
| Lowering.TupleArgumentKept | main.py:71 | a tuple used as a call argument is not flattened: `f((a + b,))` emits one assignment, and the tuple keeps `a + b` |
| Lowering.VisitShape | main.py:26-40 | a statement is kept exactly when it is not flattened. Otherwise the output is the flattened assignments, then one statement of the original kind and targets that uses the flattened value; the counter advances by one per emitted assignment |
| Lowering.VisitReturn | main.py:26-32 | a return is kept, with the counter unchanged, exactly when it returns nothing or a value that is not an operation or a tuple; `VisitShape` and `VisitSound` give the expanded form and its meaning |
| Lowering.VisitAssign | main.py:34-40 | an assignment is kept, with the counter unchanged, exactly when its value is not an operation; `VisitShape` and `VisitSound` give the expanded form and its meaning |
| Lowering.Visit | main.py:18 | a statement is kept, with the counter unchanged, exactly when it is not flattened; any other statement kind is kept; the counter never goes back |
| Lowering.Splice | main.py:19-22 | a list answer is spliced in as its statements, a single node as itself; `RewriteBodyCons` and `RewriteBodyAppend` state the resulting order |
| Lowering.RewriteBody | main.py:16-22 | the walk over the body, with the counter carried from statement to statement; `RewriteBodyAppend`, `RewriteBodyCons` and `RewriteBodyTemps` characterise it |
| Lowering.RewriteFunction | main.py:13-24 | the walk from a counter reset to 0; `FunctionTemps` gives the temporaries it binds and `Semantics.FunctionSound` its meaning |
| Lowering.TupleAssignKept | main.py:28-36 | a tuple-valued assignment is kept, while a tuple-valued return is expanded |
| Lowering.RewriteBodyAppend | main.py:17-22 | rewriting a concatenation of statement lists is rewriting each part, with the counter carried over |
| Lowering.RewriteBodyCons | main.py:17-22 | rewriting a body is rewriting its first statement, then the rest from the counter that statement left |
| Lowering.TempRange | main.py:8-11 | `TempRange(n, m)` holds `m - n` names, the `i`-th being `v<n+i>` |
| Lowering.TempsBoundAppend | main.py:17-22 | the temporaries bound by concatenated statement lists are those of each part, in order |
| Lowering.NumberedTempsBound | main.py:49 | consecutively numbered bindings bind exactly that range of temporaries |
| Lowering.VisitTemps | main.py:26-40 | one statement binds exactly the temporaries from the counter on entry to the counter on exit |
| Lowering.RewriteBodyTemps | main.py:13-24 | in a body that assigns no name shaped like a temporary, the rewritten body binds exactly the temporaries between the initial and final counter, in order |
| Lowering.FunctionTemps | main.py:15 | in a body that assigns no temporary-shaped name, after the reset, the rewritten body binds `v0, v1, ...` up to the final counter, each once, starting with `v0` |
| Semantics.ExecBodyAppend | main.py:20-22 | running a spliced list of statements is running the first part and, if it ends normally, the second |
| Semantics.EvalCongruence | main.py:42-92 | evaluation depends only on the bindings of the names the expression reads |
| Semantics.TempFreeEval | main.py:42-92 | an expression that reads no temporary evaluates alike in environments that differ only in temporaries |
| Semantics.ResidualAgree | main.py:51 | the value the flattening hands back reads only the original names and the temporaries it bound |
| Semantics.FlattenSound | main.py:42-92 | the emitted assignments perform the same operations in the same order as evaluating the expression, and raise exactly when it raises. When they end normally, they have only bound new temporaries, and the returned value evaluates to the expression's value with no further operation |
| Semantics.UnaryOpSound | main.py:44-56 | the unary case of the above |
| Semantics.BinOpSound | main.py:57-66 | the binary case of the above: left, then right, then the operation |
| Semantics.CallSound | main.py:67-80 | the call case of the above: arguments in order, then the call with the original `func` and keywords |
| Semantics.CallResidual | main.py:77-79 | the emitted call over the flattened arguments, with the original `func` and keywords, performs the rest of the original call's operations and yields its result |
| Semantics.TupleSound | main.py:81-91 | the tuple case of the above |
| Semantics.FlattenArgsSound | main.py:69-76 | the list case of the above: arguments are evaluated in order |
| Semantics.OperationArgSound | main.py:71-74 | the step of the list case for an operation argument: its assignments follow those of the earlier arguments, and the earlier values stay valid |
| Semantics.KeptSound | main.py:26-40 | a `return`, assignment or other statement the pass keeps behaves alike in environments that differ only in temporaries |
| Semantics.VisitSound | main.py:26-40 | a statement and its rewriting perform the same operations, end alike, return the same value, and agree on every non-temporary binding afterwards |
| Semantics.BodySound | main.py:17-22 | the same for a whole statement list, statement by statement |
| Semantics.FunctionSound | main.py:13-24 | the rewritten function body does what the original does, on every input environment, under the three hypotheses listed under "Left out" |
| Semantics.NameCapture | main.py:9 | a body reading a user variable named `v0` changes its result under the rewrite (`return -x + v0`) |
| Semantics.OrderChange | main.py:75-76 | a non-operation argument is evaluated after later operation arguments: in `f(x, g(y))` with `x` unbound, the rewrite calls `g` before raising |
| Scenarios.FooRewritten | main.py:97-98 | `foo`'s body becomes exactly `v0 = -a; v1 = a - b; v2 = c ** v1; v3 = v2 + d; v4 = baz(v0, v3, k=A + 123); return v4` |
| Scenarios.BarFirstStatement | main.py:101 | `a = x * 2 + sin(x)` becomes `v0 = x * 2; v1 = sin(x); v2 = v0 + v1; a = v2` |
| Scenarios.BarReturnStatement | main.py:103 | `return a, b, x + 1` becomes `v3 = x + 1; return (a, b, v3)` |
| Scenarios.BarRewritten | main.py:100-103 | `bar`'s whole body, with `b = a` kept and the counter running on from 3 |

## Left out

- The driver (main.py:95-115) is not modelled: parsing the source text, `ast.fix_missing_locations`, `ast.unparse` and printing are I/O and library code.
- Statements inside a function body other than `return` and assignments are `OtherStmt` and are kept whole. In the program, `NodeTransformer.generic_visit` also descends into them: it flattens a `return` or assignment inside an `if` or a loop, and a nested `def` resets the shared counter. This recursion is not modelled.
- Statements outside any function are reached through `generic_visit` of the module node. They are flattened without a counter reset. This is not modelled; only function bodies are.
- The AST is reduced to the node kinds the pass inspects. Every other expression kind (attributes, subscripts, comparisons, lists, ...) is `OtherExpr` with its child expressions. Every other statement kind is `OtherStmt`.
- `ctx` on names, source locations and the typed fields of other nodes are left out. `ctx` is kept on tuples, because the pass reproduces it.
- A keyword argument always has a name (`Ast.Keyword`). Python's `f(**d)`, a keyword without a name, is written with some fixed name; the pass copies keywords unchanged, so nothing depends on it.
- Assignment targets are plain names. A target such as `a.b`, `a[i]` or a tuple target is not represented. The pass copies targets unchanged, and so does the model.
- `Semantics.Eval` evaluates every child of an other node (`OtherExpr`) eagerly, left to right. Python does not do this for `and`, `or`, conditional expressions, lambdas or comprehensions. No theorem depends on it: such nodes are evaluated identically before and after the rewrite, or fall outside `Semantics.Orderly`.
- The meaning of operators, literals, calls and other node kinds is a parameter (`Semantics.Oracles`). The results hold for every choice of these value-returning functions; none of them can change the environment, a restriction discussed below. Floating point and Python's numeric tower are not modelled.
- `Semantics.FunctionSound`: stated under three hypotheses the program does not check. The first two are these.
  - The body reads and assigns no name shaped like a temporary. `Semantics.NameCapture` shows what goes wrong otherwise.
  - Each statement's value is `Semantics.Orderly`. Outside keyword values, every name read, operands included, is bound on entry or by an earlier assignment; names bound by other statements (a `for` target, an `import`, a nested `def`) do not count. The function of every call and every non-operation argument or tuple element is a bound name, a constant, or a tuple of these. No node kind other than names, constants, unary and binary operations, calls and tuples occurs, so `return -a.b` or `return a.b + 1` is outside the theorem. The pass evaluates some of these nodes later than the original does, so an unbound name or a failing node would raise after, not before, the operations moved ahead of it, and a name could be read after those operations have rebound it (see the lines below on rebinding). `Semantics.OrderChange` shows a changed order of calls otherwise.
- `Semantics.FlattenSound`: calls, operators and other nodes cannot rebind variables in the model (`Semantics.Oracles` returns values only). The pass leaves a `Name` left operand, a call's function and non-operation arguments in place while it hoists later operations into temporaries, so in Python `return x + g()` with `g` doing `global x; x = 10` returns the old `x` originally and the new one after the rewrite (`v0 = g(); v1 = x + v0`). The lemma does not cover such code.
- `Semantics.VisitSound`: inherits the same restriction; a hoisted call that rebinds a name read later in the statement changes its value or its assigned binding.
- `Semantics.BodySound`: inherits the same restriction through `Semantics.VisitSound`. It also assumes `Semantics.StatementsIgnoreTemps`, so a statement the pass does not inspect may neither observe a temporary nor unbind any name; a body containing `del y` is not covered.
- `Semantics.FunctionSound`: inherits the same restriction; in Python it additionally needs that no hoisted call or operator rebinds a name that the rest of its statement reads.
- `Semantics.FunctionSound`: the third hypothesis is that statements the pass does not inspect, whose meaning is a parameter, neither observe any temporary nor unbind any name (`Semantics.StatementsIgnoreTemps`). So a body containing `del y` is not covered.
- One might expect every compound value to end up atomic. In the code, a flattened `return` of a tuple keeps a tuple value, and a tuple nested in an argument is not flattened. The model follows the code; see `Lowering.FlattenResult` and `Lowering.TupleArgumentKept`.
