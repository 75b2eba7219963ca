/**
 * The two functions of the program's usage example (main.py), rewritten by the pass. The
 * variable names of the example are parameters: the rewrite does not depend on them.
 */
module Scenarios {
  import opened Wrappers
  import opened Ast
  import opened TempNames
  import opened Lowering

  function N(x: string): Expr { Name(x) }

  /** `def foo(a, b, c, d): return baz(-a, c**(a - b) + d, k=A + 123)` */
  function FooBody(a: string, b: string, c: string, d: string, baz: string, k: string, A: string): seq<Stmt> {
    [Return(Some(Call(N(baz),
                      [UnaryOp(USub, N(a)),
                       BinOp(BinOp(N(c), Pow, BinOp(N(a), Sub, N(b))), Add, N(d))],
                      [Keyword(k, BinOp(N(A), Add, Constant(IntLit(123))))])))]
  }

  /** The first five temporaries, spelled out. */
  lemma SmallTempNames()
    ensures TempName(0) == "v0" && TempName(1) == "v1" && TempName(2) == "v2"
    ensures TempName(3) == "v3" && TempName(4) == "v4"
  {
  }

  /** `c**(a - b) + d`, reached with the counter at 1: `v1 = a - b; v2 = c ** v1; v3 = v2 + d`. */
  lemma FooSecondArgument(a: string, b: string, c: string, d: string)
    ensures var diff := BinOp(N(a), Sub, N(b));
      Flatten(BinOp(BinOp(N(c), Pow, diff), Add, N(d)), 1) ==
        Flat([Assign(["v1"], diff), Assign(["v2"], BinOp(N(c), Pow, N("v1"))), Assign(["v3"], BinOp(N("v2"), Add, N(d)))],
             N("v3"), 4)
  {
    var diff := BinOp(N(a), Sub, N(b));
    var pow := BinOp(N(c), Pow, diff);
    SmallTempNames();
    assert Flatten(diff, 1) == Flat([Bind(1, diff)], N("v1"), 2);
    assert Flatten(pow, 1) == Flat([Bind(1, diff), Bind(2, BinOp(N(c), Pow, N("v1")))], N("v2"), 3);
    assert Flatten(N(d), 3) == Flat([], N(d), 3);
  }

  /** The arguments `-a, c**(a - b) + d` of `baz` take `v0` to `v3`. */
  lemma FooArguments(a: string, b: string, c: string, d: string)
    ensures var neg := UnaryOp(USub, N(a));
      var diff := BinOp(N(a), Sub, N(b));
      var sum := BinOp(BinOp(N(c), Pow, diff), Add, N(d));
      FlattenArgs([neg, sum], 0) ==
        FlatList([ Assign(["v0"], neg), Assign(["v1"], diff), Assign(["v2"], BinOp(N(c), Pow, N("v1"))),
                   Assign(["v3"], BinOp(N("v2"), Add, N(d))) ],
                 [N("v0"), N("v3")], 4)
  {
    var neg := UnaryOp(USub, N(a));
    var diff := BinOp(N(a), Sub, N(b));
    var sum := BinOp(BinOp(N(c), Pow, diff), Add, N(d));
    SmallTempNames();
    assert FlattenArgs([neg], 0) == FlatList([Bind(0, neg)], [N("v0")], 1) by {
      assert [neg][..0] == [];
    }
    FooSecondArgument(a, b, c, d);
    assert [neg, sum][..1] == [neg];
  }

  /**
   * `v0 = -a; v1 = a - b; v2 = c ** v1; v3 = v2 + d; v4 = baz(v0, v3, k=A + 123); return v4`:
   * the keyword value is not flattened.
   */
  lemma FooRewritten(a: string, b: string, c: string, d: string, baz: string, k: string, A: string)
    ensures RewriteFunction(FooBody(a, b, c, d, baz, k, A)).body ==
      [ Assign(["v0"], UnaryOp(USub, N(a))),
        Assign(["v1"], BinOp(N(a), Sub, N(b))),
        Assign(["v2"], BinOp(N(c), Pow, N("v1"))),
        Assign(["v3"], BinOp(N("v2"), Add, N(d))),
        Assign(["v4"], Call(N(baz), [N("v0"), N("v3")],
                            [Keyword(k, BinOp(N(A), Add, Constant(IntLit(123))))])),
        Return(Some(N("v4"))) ]
  {
    var neg := UnaryOp(USub, N(a));
    var diff := BinOp(N(a), Sub, N(b));
    var sum := BinOp(BinOp(N(c), Pow, diff), Add, N(d));
    var kws := [Keyword(k, BinOp(N(A), Add, Constant(IntLit(123))))];
    var call := Call(N(baz), [neg, sum], kws);
    var temps := [ Assign(["v0"], neg), Assign(["v1"], diff), Assign(["v2"], BinOp(N(c), Pow, N("v1"))),
                   Assign(["v3"], BinOp(N("v2"), Add, N(d))) ];
    FooArguments(a, b, c, d);
    SmallTempNames();
    var out := temps + [Assign(["v4"], Call(N(baz), [N("v0"), N("v3")], kws)), Return(Some(N("v4")))];
    var body := FooBody(a, b, c, d, baz, k, A);
    assert Visit(body[0], 0) == Step(Expanded(out), 5) by {
      var f := Flatten(call, 0);
      assert f == Flat(temps + [Bind(4, Call(N(baz), [N("v0"), N("v3")], kws))], N("v4"), 5);
      assert body[0] == Return(Some(call));
      assert f.assigns + [Return(Some(f.value))] == out;
      assert VisitReturn(body[0], 0) == Step(Expanded(out), 5);
    }
    RewriteBodyCons(body[0], [], 0);
    assert body == [body[0]] + [];
  }

  /** `def bar(x): a = x * 2 + sin(x); b = a; return a, b, x + 1` */
  function BarBody(x: string, a: string, b: string, sin: string): seq<Stmt> {
    [ Assign([a], BinOp(BinOp(N(x), Mult, Constant(IntLit(2))), Add, Call(N(sin), [N(x)], []))),
      Assign([b], N(a)),
      Return(Some(Tuple([N(a), N(b), BinOp(N(x), Add, Constant(IntLit(1)))], Load))) ]
  }

  /** `a = x * 2 + sin(x)` becomes `v0 = x * 2; v1 = sin(x); v2 = v0 + v1; a = v2`. */
  lemma BarFirstStatement(x: string, a: string, b: string, sin: string)
    ensures var prod := BinOp(N(x), Mult, Constant(IntLit(2)));
      var call := Call(N(sin), [N(x)], []);
      Visit(BarBody(x, a, b, sin)[0], 0) ==
        Step(Expanded([Assign(["v0"], prod), Assign(["v1"], call),
                       Assign(["v2"], BinOp(N("v0"), Add, N("v1"))), Assign([a], N("v2"))]), 3)
  {
    var prod := BinOp(N(x), Mult, Constant(IntLit(2)));
    var call := Call(N(sin), [N(x)], []);
    SmallTempNames();
    assert FlattenArgs([N(x)], 1) == FlatList([], [N(x)], 1) by {
      assert [N(x)][..0] == [];
    }
    assert Flatten(prod, 0) == Flat([Bind(0, prod)], N("v0"), 1);
    assert Flatten(call, 1) == Flat([Bind(1, call)], N("v1"), 2);
    var first := [Bind(0, prod), Bind(1, call), Bind(2, BinOp(N("v0"), Add, N("v1")))];
    assert Flatten(BinOp(prod, Add, call), 0) == Flat(first, N("v2"), 3);
    assert BarBody(x, a, b, sin)[0] == Assign([a], BinOp(prod, Add, call));
    assert first + [Assign([a], N("v2"))] ==
      [Assign(["v0"], prod), Assign(["v1"], call), Assign(["v2"], BinOp(N("v0"), Add, N("v1"))), Assign([a], N("v2"))];
  }

  /** `return a, b, x + 1`, reached with the counter at 3, becomes `v3 = x + 1; return a, b, v3`. */
  lemma BarReturnStatement(x: string, a: string, b: string, sin: string)
    ensures var inc := BinOp(N(x), Add, Constant(IntLit(1)));
      Visit(BarBody(x, a, b, sin)[2], 3) ==
        Step(Expanded([Assign(["v3"], inc), Return(Some(Tuple([N(a), N(b), N("v3")], Load)))]), 4)
  {
    var inc := BinOp(N(x), Add, Constant(IntLit(1)));
    var ret := Return(Some(Tuple([N(a), N(b), N("v3")], Load)));
    SmallTempNames();
    assert FlattenArgs([N(a)], 3) == FlatList([], [N(a)], 3) by {
      assert [N(a)][..0] == [];
    }
    assert FlattenArgs([N(a), N(b)], 3) == FlatList([], [N(a), N(b)], 3) by {
      assert [N(a), N(b)][..1] == [N(a)];
    }
    assert Flatten(inc, 3) == Flat([Bind(3, inc)], N("v3"), 4);
    assert FlattenArgs([N(a), N(b), inc], 3) == FlatList([Bind(3, inc)], [N(a), N(b), N("v3")], 4) by {
      assert [N(a), N(b), inc][..2] == [N(a), N(b)];
    }
    assert Flatten(Tuple([N(a), N(b), inc], Load), 3) ==
      Flat([Bind(3, inc)], Tuple([N(a), N(b), N("v3")], Load), 4);
    assert [Bind(3, inc)] + [ret] == [Assign(["v3"], inc), ret];
  }

  /**
   * `v0 = x * 2; v1 = sin(x); v2 = v0 + v1; a = v2; b = a; v3 = x + 1; return a, b, v3`:
   * the atomic assignment is kept, and only the operation inside the returned tuple
   * gets a temporary; numbering continues across the statements of one function.
   */
  lemma BarRewritten(x: string, a: string, b: string, sin: string)
    ensures RewriteFunction(BarBody(x, a, b, sin)).body ==
      [ Assign(["v0"], BinOp(N(x), Mult, Constant(IntLit(2)))),
        Assign(["v1"], Call(N(sin), [N(x)], [])),
        Assign(["v2"], BinOp(N("v0"), Add, N("v1"))),
        Assign([a], N("v2")),
        Assign([b], N(a)),
        Assign(["v3"], BinOp(N(x), Add, Constant(IntLit(1)))),
        Return(Some(Tuple([N(a), N(b), N("v3")], Load))) ]
  {
    var body := BarBody(x, a, b, sin);
    BarFirstStatement(x, a, b, sin);
    BarReturnStatement(x, a, b, sin);
    assert Visit(body[1], 3) == Step(Kept(body[1]), 3);
    RewriteBodyCons(body[2], [], 3);
    assert [body[2]] + [] == [body[2]];
    RewriteBodyCons(body[1], [body[2]], 3);
    assert [body[1]] + [body[2]] == [body[1], body[2]];
    RewriteBodyCons(body[0], [body[1], body[2]], 0);
    assert body == [body[0]] + [body[1], body[2]];
  }
}
