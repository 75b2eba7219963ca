/**
 * What the rewritten code computes. Evaluation is left to right, as in Python, and
 * records every operation it performs (unary, binary, call, other) in a trace. The
 * meaning of operators, literals, calls and of the other node kinds is a parameter
 * (`Oracles`): the pass never interprets them, and the results below hold for every
 * choice. An operation may fail (`None`), as a Python operation may raise. An
 * expression's operations return a value and leave the environment alone: a Python
 * call that rebinds a variable (`global`, `nonlocal`) has no counterpart here, and
 * for such code the soundness results below say nothing.
 */
module Semantics {
  import opened Wrappers
  import opened Ast
  import opened TempNames
  import opened Lowering

  datatype Event<V> =
    | UnaryEvent(uop: UnaryOperator, operand: V)
    | BinaryEvent(bop: BinaryOperator, left: V, right: V)
    | CallEvent(func: V, args: seq<V>, keywords: seq<(string, V)>)
    | OtherEvent(kind: string, children: seq<V>)

  datatype Oracles<!V> = Oracles(
    literal: Literal -> V,
    unary: (UnaryOperator, V) -> Option<V>,
    binary: (BinaryOperator, V, V) -> Option<V>,
    call: (V, seq<V>, seq<(string, V)>) -> Option<V>,
    tuple: seq<V> -> V,
    other: (string, seq<V>) -> Option<V>,
    statement: (string, map<string, V>) -> Option<map<string, V>>)

  /** The operations performed, in order, and the value (`None`: an exception was raised). */
  datatype Outcome<V> = Outcome(trace: seq<Event<V>>, result: Option<V>)
  datatype ListOutcome<V> = ListOutcome(trace: seq<Event<V>>, results: Option<seq<V>>)
  datatype KeywordOutcome<V> = KeywordOutcome(trace: seq<Event<V>>, results: Option<seq<(string, V)>>)

  function Lookup<V>(env: map<string, V>, x: string): Option<V> {
    if x in env then Some(env[x]) else None
  }

  function Eval<V>(o: Oracles<V>, env: map<string, V>, e: Expr): Outcome<V>
    decreases e
  {
    match e
    case Name(x) => Outcome([], Lookup(env, x))
    case Constant(c) => Outcome([], Some(o.literal(c)))
    case UnaryOp(op, x) =>
      var a := Eval(o, env, x);
      if a.result.None? then a
      else Outcome(a.trace + [UnaryEvent(op, a.result.value)], o.unary(op, a.result.value))
    case BinOp(l, op, rt) =>
      var a := Eval(o, env, l);
      if a.result.None? then a
      else
        var b := Eval(o, env, rt);
        if b.result.None? then Outcome(a.trace + b.trace, None)
        else
          Outcome(a.trace + b.trace + [BinaryEvent(op, a.result.value, b.result.value)],
                  o.binary(op, a.result.value, b.result.value))
    case Call(f, args, kws) =>
      var a := Eval(o, env, f);
      if a.result.None? then a
      else
        var b := EvalList(o, env, args);
        if b.results.None? then Outcome(a.trace + b.trace, None)
        else
          var c := EvalKeywords(o, env, kws);
          if c.results.None? then Outcome(a.trace + b.trace + c.trace, None)
          else
            Outcome(a.trace + b.trace + c.trace + [CallEvent(a.result.value, b.results.value, c.results.value)],
                    o.call(a.result.value, b.results.value, c.results.value))
    case Tuple(elts, _) =>
      var b := EvalList(o, env, elts);
      if b.results.None? then Outcome(b.trace, None)
      else Outcome(b.trace, Some(o.tuple(b.results.value)))
    case OtherExpr(kind, children) =>
      var b := EvalList(o, env, children);
      if b.results.None? then Outcome(b.trace, None)
      else Outcome(b.trace + [OtherEvent(kind, b.results.value)], o.other(kind, b.results.value))
  }

  function EvalList<V>(o: Oracles<V>, env: map<string, V>, es: seq<Expr>): ListOutcome<V>
    decreases es
  {
    if es == [] then ListOutcome([], Some([]))
    else
      var p := EvalList(o, env, es[..|es| - 1]);
      if p.results.None? then p
      else
        var a := Eval(o, env, es[|es| - 1]);
        if a.result.None? then ListOutcome(p.trace + a.trace, None)
        else ListOutcome(p.trace + a.trace, Some(p.results.value + [a.result.value]))
  }

  function EvalKeywords<V>(o: Oracles<V>, env: map<string, V>, kws: seq<Keyword>): KeywordOutcome<V>
    decreases kws
  {
    if kws == [] then KeywordOutcome([], Some([]))
    else
      var p := EvalKeywords(o, env, kws[..|kws| - 1]);
      if p.results.None? then p
      else
        var kw := kws[|kws| - 1];
        var a := Eval(o, env, kw.value);
        if a.result.None? then KeywordOutcome(p.trace + a.trace, None)
        else KeywordOutcome(p.trace + a.trace, Some(p.results.value + [(kw.arg, a.result.value)]))
  }

  // ----- Statements -----

  /** How a statement (or a statement list) ends: normally, by `return`, or by an exception. */
  datatype Status<V> = Normal(env: map<string, V>) | Returned(value: V) | Raised
  datatype StmtOutcome<V> = StmtOutcome(trace: seq<Event<V>>, status: Status<V>)

  function AssignAll<V>(env: map<string, V>, targets: seq<string>, v: V): map<string, V>
    decreases |targets|
  {
    if targets == [] then env else AssignAll(env[targets[0] := v], targets[1..], v)
  }

  function ExecStmt<V>(o: Oracles<V>, env: map<string, V>, s: Stmt): StmtOutcome<V> {
    match s
    case Return(None) => StmtOutcome([], Returned(o.literal(NoneLit)))
    case Return(Some(e)) =>
      var a := Eval(o, env, e);
      StmtOutcome(a.trace, if a.result.None? then Raised else Returned(a.result.value))
    case Assign(targets, e) =>
      var a := Eval(o, env, e);
      StmtOutcome(a.trace, if a.result.None? then Raised else Normal(AssignAll(env, targets, a.result.value)))
    case OtherStmt(kind) =>
      var r := o.statement(kind, env);
      StmtOutcome([], if r.None? then Raised else Normal(r.value))
  }

  function ExecBody<V>(o: Oracles<V>, env: map<string, V>, ss: seq<Stmt>): StmtOutcome<V>
    decreases |ss|
  {
    if ss == [] then StmtOutcome([], Normal(env))
    else
      var a := ExecStmt(o, env, ss[0]);
      if !a.status.Normal? then a
      else
        var b := ExecBody(o, a.status.env, ss[1..]);
        StmtOutcome(a.trace + b.trace, b.status)
  }

  /** Running `a + b` is running `a` and, if it ends normally, `b` from where `a` left off. */
  lemma {:induction false} ExecBodyAppend<V>(o: Oracles<V>, env: map<string, V>, a: seq<Stmt>, b: seq<Stmt>)
    ensures var x := ExecBody(o, env, a);
      ExecBody(o, env, a + b) ==
        if x.status.Normal? then
          var y := ExecBody(o, x.status.env, b);
          StmtOutcome(x.trace + y.trace, y.status)
        else x
    decreases |a|
  {
    if a == [] {
      assert a + b == b;
    } else {
      assert (a + b)[0] == a[0];
      assert (a + b)[1..] == a[1..] + b;
      var s := ExecStmt(o, env, a[0]);
      if s.status.Normal? {
        ExecBodyAppend(o, s.status.env, a[1..], b);
        var x1 := ExecBody(o, s.status.env, a[1..]);
        if x1.status.Normal? {
          var y := ExecBody(o, x1.status.env, b);
          assert s.trace + (x1.trace + y.trace) == (s.trace + x1.trace) + y.trace;
        }
      }
    }
  }

  // ----- Environments that differ only in temporaries -----

  /** `e` reads no name that looks like a temporary, anywhere (keyword values and `func` included). */
  predicate TempFree(e: Expr)
    decreases e
  {
    match e
    case Name(x) => !IsTemp(x)
    case Constant(_) => true
    case UnaryOp(_, x) => TempFree(x)
    case BinOp(l, _, rt) => TempFree(l) && TempFree(rt)
    case Call(f, args, kws) =>
      TempFree(f) && (forall i :: 0 <= i < |args| ==> TempFree(args[i]))
      && (forall i :: 0 <= i < |kws| ==> TempFree(kws[i].value))
    case Tuple(elts, _) => forall i :: 0 <= i < |elts| ==> TempFree(elts[i])
    case OtherExpr(_, children) => forall i :: 0 <= i < |children| ==> TempFree(children[i])
  }

  /** Every name `e` reads has the same binding in `env1` and `env2`. */
  ghost predicate AgreeOn<V>(e: Expr, env1: map<string, V>, env2: map<string, V>)
    decreases e
  {
    match e
    case Name(x) => Lookup(env1, x) == Lookup(env2, x)
    case Constant(_) => true
    case UnaryOp(_, x) => AgreeOn(x, env1, env2)
    case BinOp(l, _, rt) => AgreeOn(l, env1, env2) && AgreeOn(rt, env1, env2)
    case Call(f, args, kws) =>
      AgreeOn(f, env1, env2) && (forall i :: 0 <= i < |args| ==> AgreeOn(args[i], env1, env2))
      && (forall i :: 0 <= i < |kws| ==> AgreeOn(kws[i].value, env1, env2))
    case Tuple(elts, _) => forall i :: 0 <= i < |elts| ==> AgreeOn(elts[i], env1, env2)
    case OtherExpr(_, children) => forall i :: 0 <= i < |children| ==> AgreeOn(children[i], env1, env2)
  }

  /** The two environments bind every name that is not temporary-looking alike. */
  ghost predicate AgreeNonTemp<V>(env1: map<string, V>, env2: map<string, V>) {
    forall x :: !IsTemp(x) ==> Lookup(env1, x) == Lookup(env2, x)
  }

  /** The two environments bind the temporaries `v0 .. v<m - 1>` alike. */
  ghost predicate AgreeBelow<V>(env1: map<string, V>, env2: map<string, V>, m: nat) {
    forall k: nat :: k < m ==> Lookup(env1, TempName(k)) == Lookup(env2, TempName(k))
  }

  /** Evaluation depends only on the bindings of the names read. */
  lemma {:induction false} EvalCongruence<V>(o: Oracles<V>, env1: map<string, V>, env2: map<string, V>, e: Expr)
    requires AgreeOn(e, env1, env2)
    ensures Eval(o, env1, e) == Eval(o, env2, e)
    decreases e
  {
    match e
    case Name(_) =>
    case Constant(_) =>
    case UnaryOp(_, x) => EvalCongruence(o, env1, env2, x);
    case BinOp(l, _, rt) =>
      EvalCongruence(o, env1, env2, l);
      EvalCongruence(o, env1, env2, rt);
    case Call(f, args, kws) =>
      EvalCongruence(o, env1, env2, f);
      EvalListCongruence(o, env1, env2, args);
      EvalKeywordsCongruence(o, env1, env2, kws);
    case Tuple(elts, _) => EvalListCongruence(o, env1, env2, elts);
    case OtherExpr(_, children) => EvalListCongruence(o, env1, env2, children);
  }

  lemma {:induction false} EvalListCongruence<V>(o: Oracles<V>, env1: map<string, V>, env2: map<string, V>, es: seq<Expr>)
    requires forall i :: 0 <= i < |es| ==> AgreeOn(es[i], env1, env2)
    ensures EvalList(o, env1, es) == EvalList(o, env2, es)
    decreases es
  {
    if es != [] {
      var init := es[..|es| - 1];
      assert forall i :: 0 <= i < |init| ==> init[i] == es[i];
      EvalListCongruence(o, env1, env2, init);
      EvalCongruence(o, env1, env2, es[|es| - 1]);
    }
  }

  lemma {:induction false} EvalKeywordsCongruence<V>(o: Oracles<V>, env1: map<string, V>, env2: map<string, V>, kws: seq<Keyword>)
    requires forall i :: 0 <= i < |kws| ==> AgreeOn(kws[i].value, env1, env2)
    ensures EvalKeywords(o, env1, kws) == EvalKeywords(o, env2, kws)
    decreases kws
  {
    if kws != [] {
      var init := kws[..|kws| - 1];
      assert forall i :: 0 <= i < |init| ==> init[i] == kws[i];
      EvalKeywordsCongruence(o, env1, env2, init);
      EvalCongruence(o, env1, env2, kws[|kws| - 1].value);
    }
  }

  /** An expression that reads no temporary cannot tell apart environments that differ only in temporaries. */
  lemma {:induction false} TempFreeAgreeOn<V>(e: Expr, env1: map<string, V>, env2: map<string, V>)
    requires TempFree(e) && AgreeNonTemp(env1, env2)
    ensures AgreeOn(e, env1, env2)
    decreases e
  {
    match e
    case Name(_) =>
    case Constant(_) =>
    case UnaryOp(_, x) => TempFreeAgreeOn(x, env1, env2);
    case BinOp(l, _, rt) =>
      TempFreeAgreeOn(l, env1, env2);
      TempFreeAgreeOn(rt, env1, env2);
    case Call(f, args, kws) =>
      TempFreeAgreeOn(f, env1, env2);
      forall i | 0 <= i < |args| ensures AgreeOn(args[i], env1, env2) {
        TempFreeAgreeOn(args[i], env1, env2);
      }
      forall i | 0 <= i < |kws| ensures AgreeOn(kws[i].value, env1, env2) {
        TempFreeAgreeOn(kws[i].value, env1, env2);
      }
    case Tuple(elts, _) =>
      forall i | 0 <= i < |elts| ensures AgreeOn(elts[i], env1, env2) {
        TempFreeAgreeOn(elts[i], env1, env2);
      }
    case OtherExpr(_, children) =>
      forall i | 0 <= i < |children| ensures AgreeOn(children[i], env1, env2) {
        TempFreeAgreeOn(children[i], env1, env2);
      }
  }

  lemma TempFreeEval<V>(o: Oracles<V>, env1: map<string, V>, env2: map<string, V>, e: Expr)
    requires TempFree(e) && AgreeNonTemp(env1, env2)
    ensures Eval(o, env1, e) == Eval(o, env2, e)
  {
    TempFreeAgreeOn(e, env1, env2);
    EvalCongruence(o, env1, env2, e);
  }

  // ----- When the rewrite keeps the order of operations -----

  /**
   * Expressions whose evaluation performs no operation and cannot fail once the
   * names in `defined` are bound: names, constants and tuples of these. These are the
   * only values the pass evaluates later than the original program would.
   */
  predicate Quiet(e: Expr, defined: set<string>)
    decreases e
  {
    match e
    case Name(x) => x in defined
    case Constant(_) => true
    case Tuple(elts, _) => forall i :: 0 <= i < |elts| ==> Quiet(elts[i], defined)
    case _ => false
  }

  /**
   * The expressions the rewrite is proved to evaluate faithfully: names read outside
   * keyword values are bound, the `func` of every call and every non-operation
   * argument or tuple element is quiet, and no other node kind occurs outside keyword
   * values.
   */
  predicate Orderly(e: Expr, defined: set<string>)
    decreases e, 1
  {
    match e
    case Name(x) => x in defined
    case Constant(_) => true
    case UnaryOp(_, x) => Orderly(x, defined)
    case BinOp(l, _, rt) => Orderly(l, defined) && Orderly(rt, defined)
    case Call(f, args, _) => Quiet(f, defined) && ArgsOrderly(args, defined)
    case Tuple(elts, _) => ArgsOrderly(elts, defined)
    case OtherExpr(_, _) => false
  }

  predicate ArgsOrderly(es: seq<Expr>, defined: set<string>)
    decreases es, 0
  {
    forall i :: 0 <= i < |es| ==>
      if IsOperation(es[i]) then Orderly(es[i], defined) else Quiet(es[i], defined)
  }

  lemma {:induction false} QuietEval<V>(o: Oracles<V>, env: map<string, V>, e: Expr, defined: set<string>)
    requires Quiet(e, defined) && defined <= env.Keys
    ensures Eval(o, env, e).trace == [] && Eval(o, env, e).result.Some?
    decreases e
  {
    match e
    case Name(_) =>
    case Constant(_) =>
    case Tuple(elts, _) => QuietEvalList(o, env, elts, defined);
  }

  lemma {:induction false} QuietEvalList<V>(o: Oracles<V>, env: map<string, V>, es: seq<Expr>, defined: set<string>)
    requires forall i :: 0 <= i < |es| ==> Quiet(es[i], defined)
    requires defined <= env.Keys
    ensures EvalList(o, env, es).trace == [] && EvalList(o, env, es).results.Some?
    decreases es
  {
    if es != [] {
      var init := es[..|es| - 1];
      assert forall i :: 0 <= i < |init| ==> init[i] == es[i];
      QuietEvalList(o, env, init, defined);
      QuietEval(o, env, es[|es| - 1], defined);
    }
  }

  /**
   * `env1` is `env` after some temporaries `v<k>`, `k >= n`, were bound: every other
   * name, and every earlier temporary, is bound as before.
   */
  ghost predicate Settled<V>(env: map<string, V>, env1: map<string, V>, n: nat) {
    AgreeNonTemp(env, env1) && AgreeBelow(env, env1, n) && env.Keys <= env1.Keys
  }

  lemma SettledTrans<V>(env: map<string, V>, env1: map<string, V>, env2: map<string, V>, n: nat, m: nat)
    requires n <= m && Settled(env, env1, n) && Settled(env1, env2, m)
    ensures Settled(env, env2, n)
  {
  }

  lemma SettledBind<V>(env: map<string, V>, k: nat, v: V, n: nat)
    requires n <= k
    ensures Settled(env, env[TempName(k) := v], n)
  {
    TempNameIsTemp(k);
    forall j: nat | j < n ensures Lookup(env, TempName(j)) == Lookup(env[TempName(k) := v], TempName(j)) {
      TempNameInjective(j, k);
    }
  }

  /** Running one generated assignment `v<k> = rhs`. */
  lemma ExecBind<V>(o: Oracles<V>, env: map<string, V>, k: nat, rhs: Expr)
    ensures var a := Eval(o, env, rhs);
      ExecBody(o, env, [Bind(k, rhs)]) ==
        StmtOutcome(a.trace, if a.result.None? then Raised else Normal(env[TempName(k) := a.result.value]))
  {
    var a := Eval(o, env, rhs);
    assert [Bind(k, rhs)][1..] == [];
    if a.result.Some? {
      assert AssignAll(env, [TempName(k)], a.result.value) == env[TempName(k) := a.result.value] by {
        assert [TempName(k)][1..] == [];
      }
    }
  }

  /**
   * The value the flattening hands back reads only names the original expression
   * reads and the temporaries bound while flattening it.
   */
  lemma {:induction false} ResidualAgree<V>(e: Expr, n: nat, env1: map<string, V>, env2: map<string, V>)
    requires TempFree(e) && AgreeNonTemp(env1, env2) && AgreeBelow(env1, env2, Flatten(e, n).next)
    ensures AgreeOn(Flatten(e, n).value, env1, env2)
    decreases e
  {
    FlattenResult(e, n);
    if IsOperation(e) {
    } else if e.Tuple? {
      ResidualAgreeList(e.elts, n, env1, env2);
    } else {
      TempFreeAgreeOn(e, env1, env2);
    }
  }

  lemma {:induction false} ResidualAgreeList<V>(es: seq<Expr>, n: nat, env1: map<string, V>, env2: map<string, V>)
    requires forall i :: 0 <= i < |es| ==> TempFree(es[i])
    requires AgreeNonTemp(env1, env2) && AgreeBelow(env1, env2, FlattenArgs(es, n).next)
    ensures forall i :: 0 <= i < |es| ==> AgreeOn(FlattenArgs(es, n).values[i], env1, env2)
    decreases es
  {
    if es != [] {
      var init := es[..|es| - 1];
      var last := es[|es| - 1];
      var p := FlattenArgs(init, n);
      var r := FlattenArgs(es, n);
      assert forall i :: 0 <= i < |init| ==> init[i] == es[i];
      ResidualAgreeList(init, n, env1, env2);
      if IsOperation(last) {
        ResidualAgree(last, p.next, env1, env2);
      } else {
        TempFreeAgreeOn(last, env1, env2);
      }
      assert forall i :: 0 <= i < |init| ==> r.values[i] == p.values[i];
    }
  }

  // ----- The flattening computes what the expression computes -----

  /**
   * Running the emitted statements `x` performs the same operations, in the same
   * order, as evaluating the original expression (`y`); it raises exactly when the
   * expression raises; and when it ends normally it has only bound new temporaries,
   * and the value handed back then evaluates, with no further operation, to the
   * expression's value.
   */
  ghost predicate Faithful<V>(o: Oracles<V>, env: map<string, V>, x: StmtOutcome<V>, y: Outcome<V>, value: Expr, n: nat) {
    && x.trace == y.trace
    && !x.status.Returned?
    && (x.status.Raised? <==> y.result.None?)
    && (x.status.Normal? ==> Settled(env, x.status.env, n) && Eval(o, x.status.env, value) == Outcome([], y.result))
  }

  ghost predicate FaithfulList<V>(o: Oracles<V>, env: map<string, V>, x: StmtOutcome<V>, y: ListOutcome<V>, values: seq<Expr>, n: nat) {
    && x.trace == y.trace
    && !x.status.Returned?
    && (x.status.Raised? <==> y.results.None?)
    && (x.status.Normal? ==>
          Settled(env, x.status.env, n) && EvalList(o, x.status.env, values) == ListOutcome([], y.results))
  }

  lemma {:induction false} FlattenSound<V>(o: Oracles<V>, env: map<string, V>, e: Expr, n: nat, defined: set<string>)
    requires TempFree(e) && Orderly(e, defined) && defined <= env.Keys
    ensures Faithful(o, env, ExecBody(o, env, Flatten(e, n).assigns), Eval(o, env, e), Flatten(e, n).value, n)
    decreases e, 1
  {
    if e.Name? || e.Constant? {
    } else if e.UnaryOp? {
      UnaryOpSound(o, env, e.uop, e.operand, n, defined);
    } else if e.BinOp? {
      BinOpSound(o, env, e.left, e.bop, e.right, n, defined);
    } else if e.Call? {
      assert forall i :: 0 <= i < |e.args| ==> TempFree(e.args[i]);
      CallSound(o, env, e.func, e.args, e.keywords, n, defined);
    } else if e.Tuple? {
      TupleSound(o, env, e.elts, e.ctx, n, defined);
    } else {
      assert false;
    }
  }

  lemma {:induction false} UnaryOpSound<V>(o: Oracles<V>, env: map<string, V>, op: UnaryOperator, x: Expr, n: nat, defined: set<string>)
    requires TempFree(x) && Orderly(x, defined) && defined <= env.Keys
    ensures var e := UnaryOp(op, x);
      Faithful(o, env, ExecBody(o, env, Flatten(e, n).assigns), Eval(o, env, e), Flatten(e, n).value, n)
    decreases UnaryOp(op, x), 0
  {
    var ox := Flatten(x, n);
    UnaryOpUniform(op, x, n);
    FlattenSound(o, env, x, n, defined);
    var rhs := UnaryOp(op, ox.value);
    ExecBodyAppend(o, env, ox.assigns, [Bind(ox.next, rhs)]);
    var xx := ExecBody(o, env, ox.assigns);
    if xx.status.Normal? {
      var env1 := xx.status.env;
      ExecBind(o, env1, ox.next, rhs);
      var a := Eval(o, env1, rhs);
      if a.result.Some? {
        SettledBind(env1, ox.next, a.result.value, ox.next);
        SettledTrans(env, env1, env1[TempName(ox.next) := a.result.value], n, ox.next);
      }
    }
  }

  lemma {:induction false} BinOpSound<V>(o: Oracles<V>, env: map<string, V>, l: Expr, op: BinaryOperator, rt: Expr, n: nat, defined: set<string>)
    requires TempFree(l) && TempFree(rt) && Orderly(l, defined) && Orderly(rt, defined) && defined <= env.Keys
    ensures var e := BinOp(l, op, rt);
      Faithful(o, env, ExecBody(o, env, Flatten(e, n).assigns), Eval(o, env, e), Flatten(e, n).value, n)
    decreases BinOp(l, op, rt), 0
  {
    var e := BinOp(l, op, rt);
    var a := Flatten(l, n);
    var b := Flatten(rt, a.next);
    var rhs := BinOp(a.value, op, b.value);
    var r := Flatten(e, n);
    assert r.assigns == a.assigns + b.assigns + [Bind(b.next, rhs)];
    var ya := Eval(o, env, l);
    var yb := Eval(o, env, rt);
    FlattenSound(o, env, l, n, defined);
    ExecBodyAppend(o, env, a.assigns + b.assigns, [Bind(b.next, rhs)]);
    ExecBodyAppend(o, env, a.assigns, b.assigns);
    var xa := ExecBody(o, env, a.assigns);
    if xa.status.Normal? {
      var env1 := xa.status.env;
      FlattenSound(o, env1, rt, a.next, defined);
      TempFreeEval(o, env1, env, rt);
      var xb := ExecBody(o, env1, b.assigns);
      if xb.status.Normal? {
        var env2 := xb.status.env;
        SettledTrans(env, env1, env2, n, a.next);
        ResidualAgree(l, n, env1, env2);
        EvalCongruence(o, env1, env2, a.value);
        assert Eval(o, env2, a.value) == Outcome([], ya.result);
        assert Eval(o, env2, b.value) == Outcome([], yb.result);
        BinOpStep(o, env2, a.value, op, b.value);
        ExecBind(o, env2, b.next, rhs);
        var c := Eval(o, env2, rhs);
        if c.result.Some? {
          SettledBind(env2, b.next, c.result.value, b.next);
          SettledTrans(env, env2, env2[TempName(b.next) := c.result.value], n, b.next);
        }
      }
    }
  }

  /** Evaluating an operation whose operands evaluate without events. */
  lemma BinOpStep<V>(o: Oracles<V>, env: map<string, V>, x: Expr, op: BinaryOperator, y: Expr)
    requires Eval(o, env, x).trace == [] && Eval(o, env, y).trace == [] && Eval(o, env, x).result.Some?
    ensures var a := Eval(o, env, x).result.value;
      var b := Eval(o, env, y).result;
      Eval(o, env, BinOp(x, op, y)) ==
        if b.None? then Outcome([], None)
        else Outcome([BinaryEvent(op, a, b.value)], o.binary(op, a, b.value))
  {
  }

  lemma KeywordsTempFreeEval<V>(o: Oracles<V>, env1: map<string, V>, env2: map<string, V>, kws: seq<Keyword>)
    requires forall i :: 0 <= i < |kws| ==> TempFree(kws[i].value)
    requires AgreeNonTemp(env1, env2)
    ensures EvalKeywords(o, env1, kws) == EvalKeywords(o, env2, kws)
  {
    forall i | 0 <= i < |kws| ensures AgreeOn(kws[i].value, env1, env2) {
      TempFreeAgreeOn(kws[i].value, env1, env2);
    }
    EvalKeywordsCongruence(o, env1, env2, kws);
  }

  lemma {:induction false} CallSound<V>(o: Oracles<V>, env: map<string, V>, f: Expr, args: seq<Expr>, kws: seq<Keyword>, n: nat, defined: set<string>)
    requires TempFree(f) && Quiet(f, defined)
    requires forall i :: 0 <= i < |args| ==> TempFree(args[i])
    requires forall i :: 0 <= i < |kws| ==> TempFree(kws[i].value)
    requires ArgsOrderly(args, defined) && defined <= env.Keys
    ensures var e := Call(f, args, kws);
      Faithful(o, env, ExecBody(o, env, Flatten(e, n).assigns), Eval(o, env, e), Flatten(e, n).value, n)
    decreases Call(f, args, kws), 0
  {
    var e := Call(f, args, kws);
    var fa := FlattenArgs(args, n);
    var rhs := Call(f, fa.values, kws);
    var r := Flatten(e, n);
    assert r.assigns == fa.assigns + [Bind(fa.next, rhs)];
    assert r.value == Name(TempName(fa.next));
    var yl := EvalList(o, env, args);
    FlattenArgsSound(o, env, args, n, defined);
    QuietEval(o, env, f, defined);
    CallEval(o, env, f, args, kws);
    ExecBodyAppend(o, env, fa.assigns, [Bind(fa.next, rhs)]);
    var xl := ExecBody(o, env, fa.assigns);
    if xl.status.Normal? {
      var env1 := xl.status.env;
      CallResidual(o, env, env1, f, args, fa.values, kws);
      ExecBind(o, env1, fa.next, rhs);
      var c := Eval(o, env1, rhs);
      if c.result.Some? {
        SettledBind(env1, fa.next, c.result.value, fa.next);
        SettledTrans(env, env1, env1[TempName(fa.next) := c.result.value], n, fa.next);
      }
    }
  }

  /**
   * Once the arguments are flattened, the residual call over their values performs
   * the rest of the original call's operations and yields its result.
   */
  lemma CallResidual<V>(o: Oracles<V>, env: map<string, V>, env1: map<string, V>, f: Expr, args: seq<Expr>, values: seq<Expr>, kws: seq<Keyword>)
    requires TempFree(f) && forall i :: 0 <= i < |kws| ==> TempFree(kws[i].value)
    requires Eval(o, env, f).trace == [] && Eval(o, env, f).result.Some?
    requires AgreeNonTemp(env1, env)
    requires EvalList(o, env, args).results.Some?
    requires EvalList(o, env1, values) == ListOutcome([], EvalList(o, env, args).results)
    ensures var y := Eval(o, env, Call(f, args, kws));
      var c := Eval(o, env1, Call(f, values, kws));
      c.result == y.result && EvalList(o, env, args).trace + c.trace == y.trace
  {
    TempFreeEval(o, env1, env, f);
    KeywordsTempFreeEval(o, env1, env, kws);
    CallEval(o, env, f, args, kws);
    CallEval(o, env1, f, values, kws);
    var b := EvalList(o, env, args);
    var k := EvalKeywords(o, env, kws);
    assert [] + k.trace == k.trace;
    assert b.trace + k.trace + [] == b.trace + k.trace;
  }

  /** What a call yields once its function, arguments and keywords are evaluated. */
  function CallOutcome<V>(o: Oracles<V>, fv: V, b: ListOutcome<V>, c: KeywordOutcome<V>): Outcome<V> {
    if b.results.None? then Outcome(b.trace, None)
    else if c.results.None? then Outcome(b.trace + c.trace, None)
    else Outcome(b.trace + c.trace + [CallEvent(fv, b.results.value, c.results.value)],
                 o.call(fv, b.results.value, c.results.value))
  }

  /** Evaluating a call whose function evaluates without events. */
  lemma CallEval<V>(o: Oracles<V>, env: map<string, V>, f: Expr, args: seq<Expr>, kws: seq<Keyword>)
    requires Eval(o, env, f).trace == [] && Eval(o, env, f).result.Some?
    ensures Eval(o, env, Call(f, args, kws)) ==
      CallOutcome(o, Eval(o, env, f).result.value, EvalList(o, env, args), EvalKeywords(o, env, kws))
  {
    assert [] + EvalList(o, env, args).trace == EvalList(o, env, args).trace;
  }

  lemma {:induction false} TupleSound<V>(o: Oracles<V>, env: map<string, V>, elts: seq<Expr>, ctx: Context, n: nat, defined: set<string>)
    requires TempFree(Tuple(elts, ctx)) && Orderly(Tuple(elts, ctx), defined) && defined <= env.Keys
    ensures var e := Tuple(elts, ctx);
      Faithful(o, env, ExecBody(o, env, Flatten(e, n).assigns), Eval(o, env, e), Flatten(e, n).value, n)
    decreases Tuple(elts, ctx), 0
  {
    FlattenArgsSound(o, env, elts, n, defined);
  }

  lemma {:induction false} FlattenArgsSound<V>(o: Oracles<V>, env: map<string, V>, es: seq<Expr>, n: nat, defined: set<string>)
    requires forall i :: 0 <= i < |es| ==> TempFree(es[i])
    requires ArgsOrderly(es, defined) && defined <= env.Keys
    ensures FaithfulList(o, env, ExecBody(o, env, FlattenArgs(es, n).assigns), EvalList(o, env, es), FlattenArgs(es, n).values, n)
    decreases es, 1
  {
    if es != [] {
      var init := es[..|es| - 1];
      var last := es[|es| - 1];
      var p := FlattenArgs(init, n);
      assert forall i :: 0 <= i < |init| ==> init[i] == es[i];
      FlattenArgsSound(o, env, init, n, defined);
      if IsOperation(last) {
        assert es == init + [last];
        OperationArgSound(o, env, init, last, n, defined);
      } else {
        var xp := ExecBody(o, env, p.assigns);
        var r := FlattenArgs(es, n);
        assert r.values[..|r.values| - 1] == p.values;
        if xp.status.Normal? {
          var env1 := xp.status.env;
          QuietEval(o, env, last, defined);
          TempFreeEval(o, env1, env, last);
        }
      }
    }
  }

  /** The step of the above for a last argument that is an operation. */
  lemma {:induction false} OperationArgSound<V>(o: Oracles<V>, env: map<string, V>, init: seq<Expr>, last: Expr, n: nat, defined: set<string>)
    requires forall i :: 0 <= i < |init| ==> TempFree(init[i])
    requires TempFree(last) && IsOperation(last) && Orderly(last, defined) && defined <= env.Keys
    requires FaithfulList(o, env, ExecBody(o, env, FlattenArgs(init, n).assigns), EvalList(o, env, init), FlattenArgs(init, n).values, n)
    ensures var es := init + [last];
      FaithfulList(o, env, ExecBody(o, env, FlattenArgs(es, n).assigns), EvalList(o, env, es), FlattenArgs(es, n).values, n)
    decreases init + [last], 0
  {
    var es := init + [last];
    assert es[..|es| - 1] == init && es[|es| - 1] == last;
    var p := FlattenArgs(init, n);
    var f := Flatten(last, p.next);
    var r := FlattenArgs(es, n);
    assert r.assigns == p.assigns + f.assigns;
    assert r.values[..|r.values| - 1] == p.values && r.values[|r.values| - 1] == f.value;
    ExecBodyAppend(o, env, p.assigns, f.assigns);
    var xp := ExecBody(o, env, p.assigns);
    if xp.status.Normal? {
      var env1 := xp.status.env;
      FlattenSound(o, env1, last, p.next, defined);
      TempFreeEval(o, env1, env, last);
      var xf := ExecBody(o, env1, f.assigns);
      if xf.status.Normal? {
        var env2 := xf.status.env;
        SettledTrans(env, env1, env2, n, p.next);
        ResidualAgreeList(init, n, env1, env2);
        EvalListCongruence(o, env1, env2, p.values);
      }
    }
  }

  // ----- Statements and function bodies -----

  /** The original and the rewritten run do the same operations and end alike. */
  ghost predicate Related<V>(x: StmtOutcome<V>, y: StmtOutcome<V>) {
    && x.trace == y.trace
    && (x.status.Raised? <==> y.status.Raised?)
    && (x.status.Returned? <==> y.status.Returned?)
    && (x.status.Returned? && y.status.Returned? ==> x.status.value == y.status.value)
    && (x.status.Normal? && y.status.Normal? ==> AgreeNonTemp(x.status.env, y.status.env))
  }

  /**
   * The statements the pass leaves alone neither observe nor remove the temporaries'
   * bindings, and never unbind a name.
   */
  ghost predicate StatementsIgnoreTemps<V(!new)>(o: Oracles<V>) {
    && (forall kind, env1, env2 {:trigger o.statement(kind, env1), o.statement(kind, env2)} ::
          AgreeNonTemp(env1, env2) ==>
            && (o.statement(kind, env1).None? <==> o.statement(kind, env2).None?)
            && (o.statement(kind, env1).Some? && o.statement(kind, env2).Some? ==>
                  AgreeNonTemp(o.statement(kind, env1).value, o.statement(kind, env2).value)))
    && (forall kind, env {:trigger o.statement(kind, env)} ::
          o.statement(kind, env).Some? ==> env.Keys <= o.statement(kind, env).value.Keys)
  }

  predicate StmtTempFree(s: Stmt) {
    match s
    case Return(v) => v.Some? ==> TempFree(v.value)
    case Assign(_, e) => TempFree(e)
    case OtherStmt(_) => true
  }

  /** The value of a statement the pass flattens is `Orderly`. */
  predicate StmtOrderly(s: Stmt, defined: set<string>) {
    match s
    case Return(v) => v.Some? && IsCompound(v.value) ==> Orderly(v.value, defined)
    case Assign(_, e) => IsOperation(e) ==> Orderly(e, defined)
    case OtherStmt(_) => true
  }

  /** The names a statement is known to bind. */
  function Defines(s: Stmt): set<string> {
    if s.Assign? then set x | x in s.targets else {}
  }

  /** Every statement is `StmtTempFree` and `StmtOrderly` for the names bound before it. */
  predicate BodyOrderly(body: seq<Stmt>, defined: set<string>)
    decreases |body|
  {
    body == [] ||
      (StmtTempFree(body[0]) && StmtOrderly(body[0], defined) && BodyOrderly(body[1..], defined + Defines(body[0])))
  }

  ghost predicate NoTemps(names: set<string>) {
    forall x :: x in names ==> !IsTemp(x)
  }

  function NonTempKeys<V>(env: map<string, V>): set<string> {
    set x | x in env && !IsTemp(x)
  }

  lemma {:induction false} TempTargetsEmpty(ts: seq<string>)
    ensures TempTargets(ts) == [] <==> forall i :: 0 <= i < |ts| ==> !IsTemp(ts[i])
    decreases |ts|
  {
    if ts != [] {
      var init := ts[..|ts| - 1];
      TempTargetsEmpty(init);
      assert forall i :: 0 <= i < |init| ==> init[i] == ts[i];
    }
  }

  lemma {:induction false} AssignAllKeys<V>(env: map<string, V>, targets: seq<string>, v: V)
    ensures AssignAll(env, targets, v).Keys == env.Keys + set x | x in targets
    decreases |targets|
  {
    if targets != [] {
      AssignAllKeys(env[targets[0] := v], targets[1..], v);
      assert (set x | x in targets) == {targets[0]} + set x | x in targets[1..];
    }
  }

  lemma {:induction false} AssignAllAgree<V>(env1: map<string, V>, env2: map<string, V>, targets: seq<string>, v: V)
    requires AgreeNonTemp(env1, env2)
    ensures AgreeNonTemp(AssignAll(env1, targets, v), AssignAll(env2, targets, v))
    decreases |targets|
  {
    if targets != [] {
      AssignAllAgree(env1[targets[0] := v], env2[targets[0] := v], targets[1..], v);
    }
  }

  lemma ExecSingle<V>(o: Oracles<V>, env: map<string, V>, s: Stmt)
    ensures ExecBody(o, env, [s]) == ExecStmt(o, env, s)
  {
    assert [s][1..] == [];
    var a := ExecStmt(o, env, s);
    assert a.trace + [] == a.trace;
  }

  /** A statement the pass keeps runs alike in two environments that differ only in temporaries. */
  lemma KeptSound<V(!new)>(o: Oracles<V>, env1: map<string, V>, env2: map<string, V>, s: Stmt)
    requires StatementsIgnoreTemps(o) && StmtTempFree(s) && AgreeNonTemp(env1, env2)
    ensures Related(ExecStmt(o, env1, s), ExecStmt(o, env2, s))
  {
    match s
    case Return(v) =>
      if v.Some? { TempFreeEval(o, env1, env2, v.value); }
    case Assign(targets, e) =>
      TempFreeEval(o, env1, env2, e);
      var a := Eval(o, env1, e);
      if a.result.Some? { AssignAllAgree(env1, env2, targets, a.result.value); }
    case OtherStmt(kind) =>
      assert AgreeNonTemp(env1, env2) ==>
        (o.statement(kind, env1).None? <==> o.statement(kind, env2).None?);
  }

  /**
   * One statement and what the pass emits for it, run from environments that differ
   * only in temporaries, perform the same operations and end alike.
   */
  lemma VisitSound<V(!new)>(o: Oracles<V>, env: map<string, V>, env2: map<string, V>, s: Stmt, n: nat, defined: set<string>)
    requires StatementsIgnoreTemps(o) && StmtTempFree(s) && StmtOrderly(s, defined)
    requires NoTemps(defined) && defined <= env.Keys && AgreeNonTemp(env, env2)
    ensures Related(ExecStmt(o, env, s), ExecBody(o, env2, Splice(Visit(s, n).result)))
  {
    assert defined <= env2.Keys by {
      forall x | x in defined ensures x in env2 {
        assert Lookup(env, x) == Lookup(env2, x);
      }
    }
    if !Flattens(s) {
      VisitShape(s, n);
      ExecSingle(o, env2, s);
      KeptSound(o, env, env2, s);
    } else {
      var e := if s.Return? then s.returned.value else s.value;
      var f := Flatten(e, n);
      var last := Splice(Visit(s, n).result)[|Splice(Visit(s, n).result)| - 1];
      assert Splice(Visit(s, n).result) == f.assigns + [last];
      FlattenSound(o, env2, e, n, defined);
      TempFreeEval(o, env, env2, e);
      ExecBodyAppend(o, env2, f.assigns, [last]);
      var x := ExecBody(o, env2, f.assigns);
      if x.status.Normal? {
        var env3 := x.status.env;
        ExecSingle(o, env3, last);
        var y := Eval(o, env, e);
        assert Eval(o, env3, f.value) == Outcome([], y.result);
        if s.Assign? && y.result.Some? {
          AssignAllAgree(env, env3, s.targets, y.result.value);
        }
      }
    }
  }

  lemma {:induction false} BodySound<V(!new)>(o: Oracles<V>, env: map<string, V>, env2: map<string, V>, body: seq<Stmt>, n: nat, defined: set<string>)
    requires StatementsIgnoreTemps(o) && NoTempTargets(body) && BodyOrderly(body, defined)
    requires NoTemps(defined) && defined <= env.Keys && AgreeNonTemp(env, env2)
    ensures Related(ExecBody(o, env, body), ExecBody(o, env2, RewriteBody(body, n).body))
    decreases |body|
  {
    if body != [] {
      var s := body[0];
      var rest := body[1..];
      assert body == [s] + rest;
      RewriteBodyCons(s, rest, n);
      var st := Visit(s, n);
      var out := Splice(st.result);
      var q := RewriteBody(rest, st.next);
      VisitSound(o, env, env2, s, n, defined);
      ExecBodyAppend(o, env2, out, q.body);
      var a := ExecStmt(o, env, s);
      var b := ExecBody(o, env2, out);
      if a.status.Normal? {
        var env1 := a.status.env;
        var env3 := b.status.env;
        var defined' := defined + Defines(s);
        assert NoTempTargets(rest) by {
          forall i | 0 <= i < |rest| ensures rest[i].Assign? ==> TempTargets(rest[i].targets) == [] {
            assert rest[i] == body[i + 1];
          }
        }
        assert NoTemps(defined') && defined' <= env1.Keys by {
          if s.Assign? {
            assert TempTargets(s.targets) == [] by { assert s == body[0]; }
            TempTargetsEmpty(s.targets);
            AssignAllKeys(env, s.targets, Eval(o, env, s.value).result.value);
          } else if s.OtherStmt? {
            assert env.Keys <= o.statement(s.kind, env).value.Keys;
          }
        }
        BodySound(o, env1, env3, rest, st.next, defined');
      }
    }
  }

  /**
   * The rewritten function body does what the original does: the same operations in
   * the same order, the same exception behaviour, the same return value, and the
   * same bindings of every name other than a temporary. This rests on expressions
   * that cannot rebind variables, as `Oracles` has it; see the module comment.
   */
  lemma FunctionSound<V(!new)>(o: Oracles<V>, env: map<string, V>, body: seq<Stmt>)
    requires StatementsIgnoreTemps(o) && NoTempTargets(body) && BodyOrderly(body, NonTempKeys(env))
    ensures Related(ExecBody(o, env, body), ExecBody(o, env, RewriteFunction(body).body))
  {
    BodySound(o, env, env, body, 0, NonTempKeys(env));
  }

  // ----- Why the hypotheses are there -----

  /** Integer oracles: every unary operator negates, every binary one adds, every call yields 0. */
  function IntOracles(): Oracles<int> {
    Oracles(
      (c: Literal) => 0,
      (op: UnaryOperator, v: int) => Some(-v),
      (op: BinaryOperator, a: int, b: int) => Some(a + b),
      (f: int, args: seq<int>, kws: seq<(string, int)>) => Some(0),
      (vs: seq<int>) => 0,
      (kind: string, vs: seq<int>) => Some(0),
      (kind: string, env: map<string, int>) => Some(env))
  }

  /**
   * The pass does not avoid the names of user variables: in a function that reads a
   * variable called `v0`, `return -x + v0` becomes `v0 = -x; v1 = v0 + v0; return v1`,
   * which returns a different value. This is why soundness asks for `TempFree` bodies.
   */
  lemma NameCapture(x: string)
    requires !IsTemp(x)
    ensures var v0 := TempName(0);
      var body := [Return(Some(BinOp(UnaryOp(USub, Name(x)), Add, Name(v0))))];
      var env := map[x := 1, v0 := 10];
      && ExecBody(IntOracles(), env, body).status == Returned(9)
      && ExecBody(IntOracles(), env, RewriteFunction(body).body).status == Returned(-2)
  {
    var e := BinOp(UnaryOp(USub, Name(x)), Add, Name(TempName(0)));
    var env := map[x := 1, TempName(0) := 10];
    NameCaptureBefore(x);
    ExecSingle(IntOracles(), env, Return(Some(e)));
    NameCaptureRewrite(x);
    NameCaptureAfter(x);
  }

  lemma NameCaptureBefore(x: string)
    requires !IsTemp(x)
    ensures var v0 := TempName(0);
      Eval(IntOracles(), map[x := 1, v0 := 10], BinOp(UnaryOp(USub, Name(x)), Add, Name(v0))) ==
        Outcome([UnaryEvent(USub, 1), BinaryEvent(Add, -1, 10)], Some(9))
  {
    var o := IntOracles();
    var v0 := TempName(0);
    TempNameIsTemp(0);
    var env := map[x := 1, v0 := 10];
    assert o.unary(USub, 1) == Some(-1) && o.binary(Add, -1, 10) == Some(9);
    assert Eval(o, env, Name(x)) == Outcome([], Some(1));
    assert Eval(o, env, UnaryOp(USub, Name(x))) == Outcome([UnaryEvent(USub, 1)], Some(-1));
    assert Eval(o, env, Name(v0)) == Outcome([], Some(10));
  }

  lemma NameCaptureRewrite(x: string)
    ensures var v0 := TempName(0);
      var e := BinOp(UnaryOp(USub, Name(x)), Add, Name(v0));
      RewriteFunction([Return(Some(e))]).body ==
        [Bind(0, UnaryOp(USub, Name(x))), Bind(1, BinOp(Name(v0), Add, Name(v0))), Return(Some(Name(TempName(1))))]
  {
    var v0 := TempName(0);
    var e := BinOp(UnaryOp(USub, Name(x)), Add, Name(v0));
    var s := Return(Some(e));
    assert Flatten(UnaryOp(USub, Name(x)), 0) == Flat([Bind(0, UnaryOp(USub, Name(x)))], Name(v0), 1);
    assert Flatten(e, 0) ==
      Flat([Bind(0, UnaryOp(USub, Name(x))), Bind(1, BinOp(Name(v0), Add, Name(v0)))], Name(TempName(1)), 2);
    RewriteBodyCons(s, [], 0);
    assert [s] + [] == [s];
  }

  lemma NameCaptureAfter(x: string)
    requires !IsTemp(x)
    ensures var v0 := TempName(0);
      var body := [Bind(0, UnaryOp(USub, Name(x))), Bind(1, BinOp(Name(v0), Add, Name(v0))), Return(Some(Name(TempName(1))))];
      ExecBody(IntOracles(), map[x := 1, v0 := 10], body).status == Returned(-2)
  {
    var o := IntOracles();
    var v0 := TempName(0);
    var v1 := TempName(1);
    TempNameIsTemp(0);
    TempNameInjective(0, 1);
    var env := map[x := 1, v0 := 10];
    var first := Bind(0, UnaryOp(USub, Name(x)));
    var second := Bind(1, BinOp(Name(v0), Add, Name(v0)));
    var ret := Return(Some(Name(v1)));
    assert o.unary(USub, 1) == Some(-1) && o.binary(Add, -1, -1) == Some(-2);
    ExecBind(o, env, 0, UnaryOp(USub, Name(x)));
    var env1 := env[v0 := -1];
    assert Eval(o, env1, Name(v0)) == Outcome([], Some(-1));
    ExecBind(o, env1, 1, BinOp(Name(v0), Add, Name(v0)));
    var env2 := env1[v1 := -2];
    assert Eval(o, env2, Name(v1)) == Outcome([], Some(-2));
    ExecSingle(o, env2, ret);
    assert [first, second, ret] == [first] + ([second] + [ret]);
    ExecBodyAppend(o, env, [first], [second] + [ret]);
    ExecBodyAppend(o, env1, [second], [ret]);
  }

  /**
   * Arguments that are not operations are evaluated after the operations that follow
   * them: in `f(x, g(y))` with `x` unbound the original raises before calling `g`, the
   * rewritten code (`v0 = g(y); v1 = f(x, v0)`) calls `g` first. This is why soundness
   * asks for `Orderly` expressions.
   */
  lemma OrderChange(f: string, g: string, x: string, y: string)
    requires !IsTemp(f) && !IsTemp(g) && !IsTemp(x) && !IsTemp(y)
    requires f != g && f != x && f != y && g != x && g != y && x != y
    ensures var body := [Return(Some(Call(Name(f), [Name(x), Call(Name(g), [Name(y)], [])], [])))];
      var env := map[f := 0, g := 1, y := 2];
      var before := ExecBody(IntOracles(), env, body);
      var after := ExecBody(IntOracles(), env, RewriteFunction(body).body);
      && before == StmtOutcome([], Raised)
      && after == StmtOutcome([CallEvent(1, [2], [])], Raised)
  {
    var inner := Call(Name(g), [Name(y)], []);
    var e := Call(Name(f), [Name(x), inner], []);
    var env := map[f := 0, g := 1, y := 2];
    OrderChangeBefore(f, g, x, y);
    ExecSingle(IntOracles(), env, Return(Some(e)));
    OrderChangeRewrite(f, g, x, y);
    OrderChangeAfter(f, g, x, y);
  }

  lemma OrderChangeBefore(f: string, g: string, x: string, y: string)
    requires f != g && f != x && f != y && g != x && g != y && x != y
    ensures var e := Call(Name(f), [Name(x), Call(Name(g), [Name(y)], [])], []);
      Eval(IntOracles(), map[f := 0, g := 1, y := 2], e) == Outcome([], None)
  {
    var o := IntOracles();
    var inner := Call(Name(g), [Name(y)], []);
    var env := map[f := 0, g := 1, y := 2];
    assert EvalList(o, env, [Name(x)]) == ListOutcome([], None) by {
      assert [Name(x)][..0] == [];
    }
    assert EvalList(o, env, [Name(x), inner]) == ListOutcome([], None) by {
      assert [Name(x), inner][..1] == [Name(x)];
    }
  }

  lemma OrderChangeRewrite(f: string, g: string, x: string, y: string)
    ensures var inner := Call(Name(g), [Name(y)], []);
      var e := Call(Name(f), [Name(x), inner], []);
      RewriteFunction([Return(Some(e))]).body ==
        [Bind(0, inner), Bind(1, Call(Name(f), [Name(x), Name(TempName(0))], [])), Return(Some(Name(TempName(1))))]
  {
    var inner := Call(Name(g), [Name(y)], []);
    var e := Call(Name(f), [Name(x), inner], []);
    var s := Return(Some(e));
    assert FlattenArgs([Name(y)], 0) == FlatList([], [Name(y)], 0) by {
      assert [Name(y)][..0] == [];
    }
    assert Flatten(inner, 0) == Flat([Bind(0, inner)], Name(TempName(0)), 1);
    assert FlattenArgs([Name(x)], 0) == FlatList([], [Name(x)], 0) by {
      assert [Name(x)][..0] == [];
    }
    assert FlattenArgs([Name(x), inner], 0) == FlatList([Bind(0, inner)], [Name(x), Name(TempName(0))], 1) by {
      assert [Name(x), inner][..1] == [Name(x)];
    }
    var rhs := Call(Name(f), [Name(x), Name(TempName(0))], []);
    assert Flatten(e, 0) == Flat([Bind(0, inner), Bind(1, rhs)], Name(TempName(1)), 2);
    RewriteBodyCons(s, [], 0);
    assert [s] + [] == [s];
  }

  lemma OrderChangeAfter(f: string, g: string, x: string, y: string)
    requires !IsTemp(f) && !IsTemp(g) && !IsTemp(x) && !IsTemp(y)
    requires f != g && f != x && f != y && g != x && g != y && x != y
    ensures var inner := Call(Name(g), [Name(y)], []);
      var body := [Bind(0, inner), Bind(1, Call(Name(f), [Name(x), Name(TempName(0))], [])), Return(Some(Name(TempName(1))))];
      ExecBody(IntOracles(), map[f := 0, g := 1, y := 2], body) == StmtOutcome([CallEvent(1, [2], [])], Raised)
  {
    var o := IntOracles();
    var v0 := TempName(0);
    TempNameIsTemp(0);
    var inner := Call(Name(g), [Name(y)], []);
    var rhs := Call(Name(f), [Name(x), Name(v0)], []);
    var env := map[f := 0, g := 1, y := 2];
    assert EvalList(o, env, [Name(y)]) == ListOutcome([], Some([2])) by {
      assert [Name(y)][..0] == [];
      assert EvalList(o, env, []) == ListOutcome([], Some([]));
      assert Eval(o, env, Name(y)) == Outcome([], Some(2));
      assert [] + [2] == [2];
    }
    assert o.call(1, [2], []) == Some(0);
    assert Eval(o, env, Name(g)) == Outcome([], Some(1));
    assert EvalKeywords(o, env, []) == KeywordOutcome([], Some([]));
    assert Eval(o, env, inner) == Outcome([CallEvent(1, [2], [])], Some(0));
    ExecBind(o, env, 0, inner);
    var env1 := env[v0 := 0];
    assert EvalList(o, env1, [Name(x)]) == ListOutcome([], None) by {
      assert [Name(x)][..0] == [];
    }
    assert EvalList(o, env1, [Name(x), Name(v0)]) == ListOutcome([], None) by {
      assert [Name(x), Name(v0)][..1] == [Name(x)];
    }
    assert Eval(o, env1, rhs) == Outcome([], None);
    ExecBind(o, env1, 1, rhs);
    var body := [Bind(0, inner), Bind(1, rhs), Return(Some(Name(TempName(1))))];
    assert body == [Bind(0, inner)] + ([Bind(1, rhs)] + [Return(Some(Name(TempName(1))))]);
    ExecBodyAppend(o, env, [Bind(0, inner)], [Bind(1, rhs)] + [Return(Some(Name(TempName(1))))]);
    ExecBodyAppend(o, env1, [Bind(1, rhs)], [Return(Some(Name(TempName(1))))]);
  }
}
