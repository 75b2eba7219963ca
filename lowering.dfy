/**
 * The lowering pass as pure functions. The counter of `new_variable` is threaded
 * explicitly: every function takes the counter value it starts from and returns the
 * value it leaves behind (`next`). The class in module Transformer is proved to
 * compute exactly these functions.
 */
module Lowering {
  import opened Wrappers
  import opened Ast
  import opened TempNames

  /** What `extract_nested_operations` returns, plus the counter it leaves behind. */
  datatype Flat = Flat(assigns: seq<Stmt>, value: Expr, next: nat)

  /** The same for a list of call arguments or tuple elements. */
  datatype FlatList = FlatList(assigns: seq<Stmt>, values: seq<Expr>, next: nat)

  /** The assignment `v<k> = rhs` that introduces the `k`-th temporary. */
  function Bind(k: nat, rhs: Expr): Stmt {
    Assign([TempName(k)], rhs)
  }

  /** The `i`-th statement of `ss` is an assignment to the single target `v<n + i>`. */
  ghost predicate Numbered(ss: seq<Stmt>, n: nat) {
    forall i :: 0 <= i < |ss| ==> ss[i].Assign? && ss[i].targets == [TempName(n + i)]
  }

  /**
   * `extract_nested_operations(node)` started with the counter at `n`.
   * Every emitted statement binds a fresh temporary, and the temporaries are
   * `v<n>, v<n+1>, ...` in emission order, one per emitted statement.
   */
  function Flatten(e: Expr, n: nat): (r: Flat)
    ensures r.next == n + |r.assigns|
    ensures Numbered(r.assigns, n)
    decreases e
  {
    match e
    case UnaryOp(op, x) =>
      if !IsAtomic(x) then
        var o := Flatten(x, n);
        NumberedSnoc(o.assigns, n, UnaryOp(op, o.value));
        Flat(o.assigns + [Bind(o.next, UnaryOp(op, o.value))], Name(TempName(o.next)), o.next + 1)
      else
        NumberedSnoc([], n, UnaryOp(op, x));
        Flat([Bind(n, UnaryOp(op, x))], Name(TempName(n)), n + 1)
    case BinOp(l, op, rt) =>
      var a := Flatten(l, n);
      var b := Flatten(rt, a.next);
      NumberedAppend(a.assigns, b.assigns, n);
      NumberedSnoc(a.assigns + b.assigns, n, BinOp(a.value, op, b.value));
      Flat(a.assigns + b.assigns + [Bind(b.next, BinOp(a.value, op, b.value))],
           Name(TempName(b.next)), b.next + 1)
    case Call(f, args, kws) =>
      var a := FlattenArgs(args, n);
      NumberedSnoc(a.assigns, n, Call(f, a.values, kws));
      Flat(a.assigns + [Bind(a.next, Call(f, a.values, kws))], Name(TempName(a.next)), a.next + 1)
    case Tuple(elts, ctx) =>
      var a := FlattenArgs(elts, n);
      Flat(a.assigns, Tuple(a.values, ctx), a.next)
    case _ =>
      Flat([], e, n)
  }

  lemma NumberedAppend(a: seq<Stmt>, b: seq<Stmt>, n: nat)
    requires Numbered(a, n) && Numbered(b, n + |a|)
    ensures Numbered(a + b, n)
  {
    forall i | 0 <= i < |a + b| ensures (a + b)[i].Assign? && (a + b)[i].targets == [TempName(n + i)] {
      if i >= |a| {
        assert (a + b)[i] == b[i - |a|];
      }
    }
  }

  lemma NumberedSnoc(a: seq<Stmt>, n: nat, rhs: Expr)
    requires Numbered(a, n)
    ensures Numbered(a + [Bind(n + |a|, rhs)], n)
  {
    NumberedAppend(a, [Bind(n + |a|, rhs)], n);
  }

  /**
   * The loop over `node.args` (or `node.elts`) started with the counter at `n`:
   * operations are flattened and replaced by their result, every other element is
   * kept as it is, in the same position.
   */
  function FlattenArgs(es: seq<Expr>, n: nat): (r: FlatList)
    ensures r.next == n + |r.assigns|
    ensures Numbered(r.assigns, n)
    ensures |r.values| == |es|
    decreases es
  {
    if es == [] then FlatList([], [], n)
    else
      var p := FlattenArgs(es[..|es| - 1], n);
      var last := es[|es| - 1];
      if IsOperation(last) then
        var f := Flatten(last, p.next);
        NumberedAppend(p.assigns, f.assigns, n);
        FlatList(p.assigns + f.assigns, p.values + [f.value], f.next)
      else
        FlatList(p.assigns, p.values + [last], p.next)
  }

  // ----- Which nodes get a temporary -----

  /**
   * An independent count of the temporaries an expression needs: one per
   * `UnaryOp`, `BinOp` and `Call` node reached through operands, through the
   * operation-valued arguments of calls and through the operation-valued elements
   * of tuples; none for tuples, names, constants and other nodes.
   */
  function OperationCount(e: Expr): (c: nat)
    ensures IsOperation(e) ==> c >= 1
    decreases e
  {
    match e
    case UnaryOp(_, x) => OperationCount(x) + 1
    case BinOp(l, _, rt) => OperationCount(l) + OperationCount(rt) + 1
    case Call(_, args, _) => OperationCountOfArgs(args) + 1
    case Tuple(elts, _) => OperationCountOfArgs(elts)
    case _ => 0
  }

  /** `OperationCount`, summed over the operation-valued elements of `es`. */
  function OperationCountOfArgs(es: seq<Expr>): nat
    decreases es
  {
    if es == [] then 0
    else
      var last := es[|es| - 1];
      OperationCountOfArgs(es[..|es| - 1]) + (if IsOperation(last) then OperationCount(last) else 0)
  }

  /** The number of temporaries created is exactly the number of operation nodes visited. */
  lemma {:induction false} FlattenCount(e: Expr, n: nat)
    ensures |Flatten(e, n).assigns| == OperationCount(e)
    ensures Flatten(e, n).next == n + OperationCount(e)
    decreases e
  {
    match e
    case UnaryOp(op, x) =>
      if !IsAtomic(x) { FlattenCount(x, n); }
    case BinOp(l, op, rt) =>
      FlattenCount(l, n);
      FlattenCount(rt, Flatten(l, n).next);
    case Call(f, args, kws) =>
      FlattenArgsCount(args, n);
    case Tuple(elts, ctx) =>
      FlattenArgsCount(elts, n);
    case _ =>
  }

  lemma {:induction false} FlattenArgsCount(es: seq<Expr>, n: nat)
    ensures |FlattenArgs(es, n).assigns| == OperationCountOfArgs(es)
    ensures FlattenArgs(es, n).next == n + OperationCountOfArgs(es)
    decreases es
  {
    if es != [] {
      FlattenArgsCount(es[..|es| - 1], n);
      var last := es[|es| - 1];
      if IsOperation(last) {
        FlattenCount(last, FlattenArgs(es[..|es| - 1], n).next);
      }
    }
  }

  /** An operation always emits at least one assignment, and the counter moves past it. */
  lemma OperationEmits(e: Expr, n: nat)
    requires IsOperation(e)
    ensures |Flatten(e, n).assigns| >= 1
    ensures Flatten(e, n).next > n
  {
    FlattenCount(e, n);
  }

  // ----- The result of one flattening -----

  /**
   * What `extract_nested_operations` hands back to its caller: for an operation,
   * a reference to the temporary bound by the last emitted statement, whose
   * right-hand side is an operation of the same kind; for a tuple, a rebuilt tuple
   * of the same length and context; for any other node, the node itself and no
   * statements.
   */
  lemma FlattenResult(e: Expr, n: nat)
    ensures var r := Flatten(e, n);
      (IsOperation(e) ==>
         r.next > n && r.value == Name(TempName(r.next - 1)) &&
         r.assigns[|r.assigns| - 1].Assign? &&
         r.assigns[|r.assigns| - 1].targets == [TempName(r.next - 1)] &&
         var rhs := r.assigns[|r.assigns| - 1].value;
         rhs.UnaryOp? == e.UnaryOp? && rhs.BinOp? == e.BinOp? && rhs.Call? == e.Call?) &&
      (e.Tuple? ==> r.value.Tuple? && |r.value.elts| == |e.elts| && r.value.ctx == e.ctx) &&
      (!IsCompound(e) ==> r == Flat([], e, n))
  {
  }

  /**
   * A unary operation always gets exactly one temporary of its own, bound to the
   * operator applied to the flattened operand, whether or not the operand was
   * already a name or a constant: the two branches of `extract_nested_operations` agree with the
   * single rule "flatten the operand, then bind".
   */
  lemma UnaryOpUniform(op: UnaryOperator, x: Expr, n: nat)
    ensures var o := Flatten(x, n);
      Flatten(UnaryOp(op, x), n) ==
        Flat(o.assigns + [Bind(o.next, UnaryOp(op, o.value))], Name(TempName(o.next)), o.next + 1)
    ensures IsAtomic(x) ==> Flatten(UnaryOp(op, x), n).assigns == [Bind(n, UnaryOp(op, x))]
  {
  }

  /**
   * For `l op r`: the statements of the left operand come first (they bind
   * `v<n> .. v<a.next - 1>`), those of the right operand follow (binding
   * `v<a.next> .. v<b.next - 1>`), and the operation's own temporary `v<b.next>` is
   * bound last, with the highest number of all.
   */
  lemma BinOpOrder(l: Expr, op: BinaryOperator, rt: Expr, n: nat)
    ensures var a := Flatten(l, n);
      var b := Flatten(rt, a.next);
      var r := Flatten(BinOp(l, op, rt), n);
      && r.assigns[..|a.assigns|] == a.assigns
      && r.assigns[|a.assigns|..|r.assigns| - 1] == b.assigns
      && r.assigns[|r.assigns| - 1] == Bind(b.next, BinOp(a.value, op, b.value))
      && n <= a.next <= b.next && r.next == b.next + 1
  {
    var a := Flatten(l, n);
    var b := Flatten(rt, a.next);
    ThreePartSlices(a.assigns, b.assigns, Bind(b.next, BinOp(a.value, op, b.value)));
  }

  lemma ThreePartSlices(a: seq<Stmt>, b: seq<Stmt>, x: Stmt)
    ensures var s := a + b + [x];
      s[..|a|] == a && s[|a|..|s| - 1] == b && s[|s| - 1] == x
  {
    var s := a + b + [x];
    assert s[..|a|] == a;
    assert s[|a|..|s| - 1] == b;
  }

  /**
   * In the rebuilt argument list (or tuple), position `i` holds the original element
   * when that element is not an operation, and otherwise the temporary holding its
   * result. That temporary's number grows with the position, since it is fixed by
   * the operations counted in the elements up to and including `i`.
   */
  lemma {:induction false} FlattenArgsValues(es: seq<Expr>, n: nat)
    ensures forall i :: 0 <= i < |es| ==> FlattenArgs(es, n).values[i] == Slot(es, i, n)
    decreases es
  {
    if es != [] {
      var init := es[..|es| - 1];
      var last := es[|es| - 1];
      var p := FlattenArgs(init, n);
      var r := FlattenArgs(es, n);
      FlattenArgsValues(init, n);
      assert r.values[..|init|] == p.values;
      forall i | 0 <= i < |es| ensures r.values[i] == Slot(es, i, n) {
        if i < |init| {
          assert init[..i] == es[..i];
          assert r.values[i] == p.values[i] == Slot(init, i, n);
        } else {
          assert init == es[..i];
          if IsOperation(last) {
            FlattenArgsCount(init, n);
            OperationValue(last, p.next);
            assert p.next + OperationCount(last) - 1 == n + OperationCountOfArgs(init) + OperationCount(last) - 1;
          }
        }
      }
    }
  }

  /**
   * What position `i` of a rebuilt argument list holds: the original element when it
   * is not an operation, and otherwise the temporary numbered by the operations in
   * the elements up to and including `i`.
   */
  function Slot(es: seq<Expr>, i: nat, n: nat): Expr
    requires i < |es|
  {
    if IsOperation(es[i]) then Name(TempName(n + OperationCountOfArgs(es[..i]) + OperationCount(es[i]) - 1))
    else es[i]
  }

  /** An operation started at counter `n` ends up in the last temporary it uses. */
  lemma OperationValue(e: Expr, n: nat)
    requires IsOperation(e)
    ensures Flatten(e, n).value == Name(TempName(n + OperationCount(e) - 1))
  {
    FlattenResult(e, n);
    FlattenCount(e, n);
  }

  /**
   * For `func(args..., keywords...)`: exactly one temporary is added for the call
   * itself, bound last, to a call with the same `func` and `keywords` and an
   * argument list of the same length in which only operation arguments were
   * replaced, each by the temporary holding its result.
   */
  lemma CallShape(f: Expr, args: seq<Expr>, kws: seq<Keyword>, n: nat)
    ensures var a := FlattenArgs(args, n);
      var r := Flatten(Call(f, args, kws), n);
      && r.next == a.next + 1
      && r.assigns[..|r.assigns| - 1] == a.assigns
      && r.assigns[|r.assigns| - 1] == Bind(a.next, Call(f, a.values, kws))
      && |a.values| == |args|
      && forall i :: 0 <= i < |args| ==>
           a.values[i] ==
             if IsOperation(args[i]) then Name(TempName(n + OperationCountOfArgs(args[..i]) + OperationCount(args[i]) - 1))
             else args[i]
  {
    FlattenArgsValues(args, n);
    var a := FlattenArgs(args, n);
    assert Flatten(Call(f, args, kws), n).assigns[..|a.assigns|] == a.assigns;
  }

  /**
   * For a tuple: no temporary for the tuple itself; the rebuilt tuple has the same
   * length and context, keeps every non-operation element and replaces each
   * operation element by the temporary holding its result.
   */
  lemma TupleShape(elts: seq<Expr>, ctx: Context, n: nat)
    ensures var a := FlattenArgs(elts, n);
      var r := Flatten(Tuple(elts, ctx), n);
      && r.next == n + OperationCountOfArgs(elts)
      && r.assigns == a.assigns
      && r.value == Tuple(a.values, ctx)
      && |a.values| == |elts|
      && forall i :: 0 <= i < |elts| ==>
           a.values[i] ==
             if IsOperation(elts[i]) then Name(TempName(n + OperationCountOfArgs(elts[..i]) + OperationCount(elts[i]) - 1))
             else elts[i]
  {
    FlattenArgsValues(elts, n);
    FlattenArgsCount(elts, n);
  }

  // ----- Fresh and distinct temporaries -----

  /**
   * The temporaries bound while flattening one expression are pairwise distinct and
   * differ from every temporary `v<k>`, `k < n`, handed out before.
   */
  lemma FlattenFresh(e: Expr, n: nat)
    ensures var r := Flatten(e, n);
      && (forall i, j :: 0 <= i < j < |r.assigns| ==> r.assigns[i].targets != r.assigns[j].targets)
      && (forall i, k: nat :: 0 <= i < |r.assigns| && k < n ==> r.assigns[i].targets != [TempName(k)])
  {
    var r := Flatten(e, n);
    forall i, j | 0 <= i < j < |r.assigns|
      ensures r.assigns[i].targets != r.assigns[j].targets
    {
      TempNameInjective(n + i, n + j);
    }
    forall i, k: nat | 0 <= i < |r.assigns| && k < n
      ensures r.assigns[i].targets != [TempName(k)]
    {
      TempNameInjective(n + i, k);
    }
  }

  // ----- Three-address form -----

  /**
   * Expressions built only from names, constants, unary and binary operations and
   * calls (whose `func` and keyword values are arbitrary, since the pass never looks
   * at them).
   */
  predicate Simple(e: Expr)
    decreases e
  {
    match e
    case Name(_) => true
    case Constant(_) => true
    case UnaryOp(_, x) => Simple(x)
    case BinOp(l, _, rt) => Simple(l) && Simple(rt)
    case Call(_, args, _) => SimpleArgs(args)
    case Tuple(_, _) => false
    case OtherExpr(_, _) => false
  }

  predicate SimpleArgs(es: seq<Expr>)
    decreases es
  {
    forall i :: 0 <= i < |es| ==> Simple(es[i])
  }

  /** One operation whose operands (positional arguments, for a call) are all atomic. */
  predicate SingleOperation(rhs: Expr) {
    match rhs
    case UnaryOp(_, x) => IsAtomic(x)
    case BinOp(l, _, rt) => IsAtomic(l) && IsAtomic(rt)
    case Call(_, args, _) => forall i :: 0 <= i < |args| ==> IsAtomic(args[i])
    case _ => false
  }

  ghost predicate AllSingleOperations(ss: seq<Stmt>) {
    forall i :: 0 <= i < |ss| ==> ss[i].Assign? && SingleOperation(ss[i].value)
  }

  /**
   * On simple expressions the pass reaches three-address form: every emitted
   * statement applies one operation to atomic operands, and the result is atomic.
   */
  lemma {:induction false} ThreeAddressForm(e: Expr, n: nat)
    requires Simple(e)
    ensures AllSingleOperations(Flatten(e, n).assigns)
    ensures IsAtomic(Flatten(e, n).value)
    decreases e
  {
    match e
    case Name(_) =>
    case Constant(_) =>
    case UnaryOp(op, x) =>
      if !IsAtomic(x) { ThreeAddressForm(x, n); }
    case BinOp(l, op, rt) =>
      ThreeAddressForm(l, n);
      ThreeAddressForm(rt, Flatten(l, n).next);
    case Call(f, args, kws) =>
      ThreeAddressFormArgs(args, n);
  }

  lemma {:induction false} ThreeAddressFormArgs(es: seq<Expr>, n: nat)
    requires SimpleArgs(es)
    ensures AllSingleOperations(FlattenArgs(es, n).assigns)
    ensures forall i :: 0 <= i < |es| ==> IsAtomic(FlattenArgs(es, n).values[i])
    decreases es
  {
    if es != [] {
      var init := es[..|es| - 1];
      var last := es[|es| - 1];
      assert SimpleArgs(init) by {
        forall i | 0 <= i < |init| ensures Simple(init[i]) { assert init[i] == es[i]; }
      }
      ThreeAddressFormArgs(init, n);
      if IsOperation(last) {
        ThreeAddressForm(last, FlattenArgs(init, n).next);
      }
    }
  }

  /** A tuple of simple elements is rebuilt as a tuple of atomic elements. */
  lemma TupleThreeAddressForm(elts: seq<Expr>, ctx: Context, n: nat)
    requires SimpleArgs(elts)
    ensures AllSingleOperations(Flatten(Tuple(elts, ctx), n).assigns)
    ensures var v := Flatten(Tuple(elts, ctx), n).value;
      v.Tuple? && forall i :: 0 <= i < |v.elts| ==> IsAtomic(v.elts[i])
  {
    ThreeAddressFormArgs(elts, n);
  }

  /**
   * Outside the simple fragment the emitted statements need not be flat: a tuple
   * passed as a call argument is kept as it is, operations inside it included.
   */
  lemma TupleArgumentKept(a: string, b: string)
    ensures var arg := Tuple([BinOp(Name(a), Add, Name(b))], Load);
      var r := Flatten(Call(Name("f"), [arg], []), 0);
      r.assigns == [Bind(0, Call(Name("f"), [arg], []))] && !SingleOperation(r.assigns[0].value)
  {
    var arg := Tuple([BinOp(Name(a), Add, Name(b))], Load);
    assert FlattenArgs([arg], 0).values == [arg];
  }

  // ----- Statement dispatch -----

  /** A visitor's answer: a list of statements to splice, or one node. */
  datatype Visited = Expanded(stmts: seq<Stmt>) | Kept(stmt: Stmt)

  /** A visitor's answer and the counter it leaves behind. */
  datatype Step = Step(result: Visited, next: nat)

  /** Whether the dispatcher flattens `s`: a returned operation or tuple, an assigned operation. */
  predicate Flattens(s: Stmt) {
    match s
    case Return(v) => v.Some? && IsCompound(v.value)
    case Assign(_, v) => IsOperation(v)
    case OtherStmt(_) => false
  }

  /** `visit_Return`. */
  function VisitReturn(s: Stmt, n: nat): (r: Step)
    requires s.Return?
    ensures r.result.Kept? <==> !Flattens(s)
    ensures r.result.Kept? ==> r == Step(Kept(s), n)
    ensures r.next >= n
  {
    if s.returned.Some? && IsCompound(s.returned.value) then
      var f := Flatten(s.returned.value, n);
      Step(Expanded(f.assigns + [Return(Some(f.value))]), f.next)
    else
      Step(Kept(s), n)
  }

  /** `visit_Assign`: the original targets are kept. */
  function VisitAssign(s: Stmt, n: nat): (r: Step)
    requires s.Assign?
    ensures r.result.Kept? <==> !Flattens(s)
    ensures r.result.Kept? ==> r == Step(Kept(s), n)
    ensures r.next >= n
  {
    if IsOperation(s.value) then
      var f := Flatten(s.value, n);
      Step(Expanded(f.assigns + [Assign(s.targets, f.value)]), f.next)
    else
      Step(Kept(s), n)
  }

  /** The visitor's dispatch over the statement kinds of a function body. */
  function Visit(s: Stmt, n: nat): (r: Step)
    ensures r.result.Kept? <==> !Flattens(s)
    ensures r.result.Kept? ==> r == Step(Kept(s), n)
    ensures r.next >= n
  {
    match s
    case Return(_) => VisitReturn(s, n)
    case Assign(_, _) => VisitAssign(s, n)
    case OtherStmt(_) => Step(Kept(s), n)
  }

  /** `extend` for a list answer, `append` for a single node. */
  function Splice(v: Visited): seq<Stmt> {
    match v
    case Expanded(ss) => ss
    case Kept(s) => [s]
  }

  /**
   * A statement is kept untouched exactly when it is not flattened. A flattened
   * statement becomes the flattening statements, which bind `v<n>, v<n+1>, ...` in
   * order, followed by one statement of the original kind (with the original
   * targets) that uses the result; the counter advances by one per temporary.
   */
  lemma VisitShape(s: Stmt, n: nat)
    ensures Visit(s, n).result.Kept? <==> !Flattens(s)
    ensures !Flattens(s) ==> Visit(s, n) == Step(Kept(s), n)
    ensures var out := Splice(Visit(s, n).result);
      && |out| >= 1
      && Visit(s, n).next == n + |out| - 1
      && Numbered(out[..|out| - 1], n)
      && (s.Return? ==> out[|out| - 1].Return?)
      && (s.Assign? ==> out[|out| - 1].Assign? && out[|out| - 1].targets == s.targets)
      && (s.Return? && Flattens(s) ==>
            out[|out| - 1] == Return(Some(Flatten(s.returned.value, n).value)))
      && (s.Assign? && Flattens(s) ==>
            out[|out| - 1].value == Flatten(s.value, n).value)
    ensures Flattens(s) ==>
      var e := if s.Return? then s.returned.value else s.value;
      var out := Splice(Visit(s, n).result);
      out[..|out| - 1] == Flatten(e, n).assigns && Visit(s, n).next == Flatten(e, n).next
  {
    if Flattens(s) {
      var e := if s.Return? then s.returned.value else s.value;
      var f := Flatten(e, n);
      var out := Splice(Visit(s, n).result);
      assert out[..|out| - 1] == f.assigns;
    }
  }

  /** A tuple-valued assignment is not flattened at the top level, unlike a tuple-valued return. */
  lemma TupleAssignKept(targets: seq<string>, elts: seq<Expr>, ctx: Context, n: nat)
    ensures Visit(Assign(targets, Tuple(elts, ctx)), n) == Step(Kept(Assign(targets, Tuple(elts, ctx))), n)
    ensures Visit(Return(Some(Tuple(elts, ctx))), n).result.Expanded?
  {
  }

  // ----- The function-body walker -----

  /** A rewritten body and the counter left behind. */
  datatype Rewritten = Rewritten(body: seq<Stmt>, next: nat)

  /** The loop of `visit_FunctionDef` over `node.body`, started with the counter at `n`. */
  function RewriteBody(body: seq<Stmt>, n: nat): Rewritten
    decreases |body|
  {
    if body == [] then Rewritten([], n)
    else
      var p := RewriteBody(body[..|body| - 1], n);
      var st := Visit(body[|body| - 1], p.next);
      Rewritten(p.body + Splice(st.result), st.next)
  }

  /** `visit_FunctionDef`: the counter is reset to zero before the body is walked. */
  function RewriteFunction(body: seq<Stmt>): Rewritten {
    RewriteBody(body, 0)
  }

  /**
   * Splicing is in order and drops nothing: rewriting `a + b` is rewriting `a`,
   * then rewriting `b` with the counter `a` left behind, concatenated.
   */
  lemma {:induction false} RewriteBodyAppend(a: seq<Stmt>, b: seq<Stmt>, n: nat)
    ensures var p := RewriteBody(a, n);
      var q := RewriteBody(b, p.next);
      RewriteBody(a + b, n) == Rewritten(p.body + q.body, q.next)
    decreases |b|
  {
    if b == [] {
      assert a + b == a;
    } else {
      var b' := b[..|b| - 1];
      assert (a + b)[..|a + b| - 1] == a + b';
      assert (a + b)[|a + b| - 1] == b[|b| - 1];
      RewriteBodyAppend(a, b', n);
    }
  }

  /** Each statement contributes exactly its own visit's answer, at its own place. */
  lemma RewriteBodyCons(s: Stmt, rest: seq<Stmt>, n: nat)
    ensures var st := Visit(s, n);
      var q := RewriteBody(rest, st.next);
      RewriteBody([s] + rest, n) == Rewritten(Splice(st.result) + q.body, q.next)
  {
    RewriteBodyAppend([s], rest, n);
    assert RewriteBody([s], n) == Rewritten(Splice(Visit(s, n).result), Visit(s, n).next) by {
      assert [s][..0] == [];
    }
  }

  // ----- Temporaries across one function body -----

  /** The names of the temporaries that the statements of `ss` assign, in order. */
  function TempsBound(ss: seq<Stmt>): seq<string>
    decreases |ss|
  {
    if ss == [] then []
    else
      var last := ss[|ss| - 1];
      TempsBound(ss[..|ss| - 1]) + (if last.Assign? then TempTargets(last.targets) else [])
  }

  function TempTargets(ts: seq<string>): seq<string>
    decreases |ts|
  {
    if ts == [] then []
    else TempTargets(ts[..|ts| - 1]) + (if IsTemp(ts[|ts| - 1]) then [ts[|ts| - 1]] else [])
  }

  /** `v<n>, v<n+1>, ..., v<m-1>`. */
  function TempRange(n: nat, m: nat): (r: seq<string>)
    requires n <= m
    ensures |r| == m - n
    ensures forall i :: 0 <= i < |r| ==> r[i] == TempName(n + i)
    decreases m - n
  {
    if n == m then [] else TempRange(n, m - 1) + [TempName(m - 1)]
  }

  /** The body never assigns a name that looks like a temporary. */
  predicate NoTempTargets(body: seq<Stmt>) {
    forall i :: 0 <= i < |body| ==> body[i].Assign? ==> TempTargets(body[i].targets) == []
  }

  lemma {:induction false} TempsBoundAppend(a: seq<Stmt>, b: seq<Stmt>)
    ensures TempsBound(a + b) == TempsBound(a) + TempsBound(b)
    decreases |b|
  {
    if b == [] {
      assert a + b == a;
    } else {
      assert (a + b)[..|a + b| - 1] == a + b[..|b| - 1];
      TempsBoundAppend(a, b[..|b| - 1]);
    }
  }

  lemma {:induction false} NumberedTempsBound(ss: seq<Stmt>, n: nat)
    requires Numbered(ss, n)
    ensures TempsBound(ss) == TempRange(n, n + |ss|)
    decreases |ss|
  {
    if ss != [] {
      var init := ss[..|ss| - 1];
      assert Numbered(init, n);
      NumberedTempsBound(init, n);
      var t := TempName(n + |ss| - 1);
      TempNameIsTemp(n + |ss| - 1);
      assert ss[|ss| - 1].targets == [t];
      assert TempTargets([t]) == [t] by { assert [t][..0] == []; }
      assert TempsBound(ss) == TempsBound(init) + [t];
      assert TempRange(n, n + |ss|) == TempRange(n, n + |ss| - 1) + [t];
    }
  }

  lemma TempRangeAppend(n: nat, m: nat, k: nat)
    requires n <= m <= k
    ensures TempRange(n, m) + TempRange(m, k) == TempRange(n, k)
  {
  }

  /** One visited statement assigns exactly the temporaries its flattening handed out. */
  lemma VisitTemps(s: Stmt, n: nat)
    requires s.Assign? ==> TempTargets(s.targets) == []
    ensures n <= Visit(s, n).next
    ensures TempsBound(Splice(Visit(s, n).result)) == TempRange(n, Visit(s, n).next)
  {
    var st := Visit(s, n);
    var out := Splice(st.result);
    VisitShape(s, n);
    var pre := out[..|out| - 1];
    var l := out[|out| - 1];
    assert out == pre + [l];
    NumberedTempsBound(pre, n);
    TempsBoundAppend(pre, [l]);
    assert TempsBound([l]) == [] by {
      assert [l][..0] == [];
      if l.Assign? { assert l.targets == s.targets; }
    }
  }

  /**
   * Within one rewritten body whose own statements assign no temporary-looking
   * name, the temporaries assigned are exactly `v<n>, ..., v<next - 1>`, each once,
   * in increasing order.
   */
  lemma {:induction false} RewriteBodyTemps(body: seq<Stmt>, n: nat)
    requires NoTempTargets(body)
    ensures n <= RewriteBody(body, n).next
    ensures TempsBound(RewriteBody(body, n).body) == TempRange(n, RewriteBody(body, n).next)
    decreases |body|
  {
    if body != [] {
      var init := body[..|body| - 1];
      var s := body[|body| - 1];
      var p := RewriteBody(init, n);
      assert NoTempTargets(init) by {
        forall i | 0 <= i < |init| ensures init[i] == body[i] { }
      }
      RewriteBodyTemps(init, n);
      var st := Visit(s, p.next);
      VisitTemps(s, p.next);
      TempsBoundAppend(p.body, Splice(st.result));
      TempRangeAppend(n, p.next, st.next);
    }
  }

  /**
   * Temporaries are numbered from zero in every function, and no two statements of
   * the rewritten body assign the same temporary.
   */
  lemma FunctionTemps(body: seq<Stmt>)
    requires NoTempTargets(body)
    ensures var r := RewriteFunction(body);
      var ts := TempsBound(r.body);
      && ts == TempRange(0, r.next)
      && (|ts| > 0 ==> ts[0] == "v0")
      && (forall i, j :: 0 <= i < j < |ts| ==> ts[i] != ts[j])
  {
    RewriteBodyTemps(body, 0);
    var ts := TempsBound(RewriteFunction(body).body);
    forall i, j | 0 <= i < j < |ts| ensures ts[i] != ts[j] {
      TempNameInjective(i, j);
    }
  }
}
