/**
 * `NestedFunctionTransformer` as a class: its one field, the temporary counter, is
 * updated in place by `NewVariable` and threaded through the recursive flattening,
 * and `VisitFunctionDef` overwrites the body of the function node it is given.
 * Every method is proved to compute the corresponding function of module Lowering.
 */
module Transformer {
  import opened Wrappers
  import opened Ast
  import opened TempNames
  import Lowering

  /** A function definition node: its identity is fixed, its body is replaced by the pass. */
  class FunctionDef {
    const name: string
    const params: seq<string>
    var body: seq<Stmt>

    constructor (name: string, params: seq<string>, body: seq<Stmt>)
      ensures this.name == name && this.params == params && this.body == body
    {
      this.name := name;
      this.params := params;
      this.body := body;
    }
  }

  class NestedFunctionTransformer {
    var variableCounter: nat

    constructor ()
      ensures variableCounter == 0
    {
      variableCounter := 0;
    }

    /** Hands out `v<counter>` and moves the counter on by one. */
    method NewVariable() returns (variableName: string)
      modifies this
      ensures variableName == TempName(old(variableCounter))
      ensures variableCounter == old(variableCounter) + 1
    {
      variableName := "v" + Decimal(variableCounter);
      variableCounter := variableCounter + 1;
    }

    /**
     * Flattens one expression: the returned assignments, the returned value and the
     * counter left behind are those of `Lowering.Flatten` from the counter found on entry.
     */
    method ExtractNestedOperations(node: Expr) returns (newAssignments: seq<Stmt>, value: Expr)
      modifies this
      ensures Lowering.Flatten(node, old(variableCounter)) == Lowering.Flat(newAssignments, value, variableCounter)
      decreases node, 1
    {
      newAssignments := [];
      match node
      case UnaryOp(op, operand) =>
        if !IsAtomic(operand) {
          var newOperand;
          newAssignments, newOperand := ExtractNestedOperations(operand);
          var newVar := NewVariable();
          newAssignments := newAssignments + [Assign([newVar], UnaryOp(op, newOperand))];
          value := Name(newVar);
        } else {
          var newVar := NewVariable();
          newAssignments := newAssignments + [Assign([newVar], UnaryOp(op, operand))];
          value := Name(newVar);
        }
      case BinOp(left, op, right) =>
        var leftAssignments, leftValue := ExtractNestedOperations(left);
        var rightAssignments, rightValue := ExtractNestedOperations(right);
        assert [] + leftAssignments == leftAssignments;
        newAssignments := newAssignments + leftAssignments;
        newAssignments := newAssignments + rightAssignments;
        var newVar := NewVariable();
        newAssignments := newAssignments + [Assign([newVar], BinOp(leftValue, op, rightValue))];
        value := Name(newVar);
      case Call(func, args, keywords) =>
        var argAssignments, newArgs := ExtractNestedList(args);
        assert [] + argAssignments == argAssignments;
        newAssignments := newAssignments + argAssignments;
        var newVar := NewVariable();
        newAssignments := newAssignments + [Assign([newVar], Call(func, newArgs, keywords))];
        value := Name(newVar);
      case Tuple(elts, ctx) =>
        var eltAssignments, newElts := ExtractNestedList(elts);
        assert [] + eltAssignments == eltAssignments;
        newAssignments := newAssignments + eltAssignments;
        value := Tuple(newElts, ctx);
      case _ =>
        value := node;
    }

    /**
     * The loop over the arguments of a call or the elements of a tuple: operations
     * are flattened in order and replaced by their result, other elements are kept.
     */
    method ExtractNestedList(elements: seq<Expr>) returns (newAssignments: seq<Stmt>, newElements: seq<Expr>)
      modifies this
      ensures Lowering.FlattenArgs(elements, old(variableCounter)) ==
              Lowering.FlatList(newAssignments, newElements, variableCounter)
      decreases elements, 0
    {
      newAssignments, newElements := [], [];
      var i := 0;
      while i < |elements|
        invariant 0 <= i <= |elements|
        invariant Lowering.FlattenArgs(elements[..i], old(variableCounter)) ==
                  Lowering.FlatList(newAssignments, newElements, variableCounter)
      {
        var element := elements[i];
        assert elements[..i + 1][..i] == elements[..i];
        if IsOperation(element) {
          var elementAssignments, newElement := ExtractNestedOperations(element);
          newAssignments := newAssignments + elementAssignments;
          newElements := newElements + [newElement];
        } else {
          newElements := newElements + [element];
        }
        i := i + 1;
      }
      assert elements[..i] == elements;
    }

    /** A `return` of an operation or a tuple expands; any other `return` is kept. */
    method VisitReturn(node: Stmt) returns (result: Lowering.Visited)
      requires node.Return?
      modifies this
      ensures Lowering.Step(result, variableCounter) == Lowering.VisitReturn(node, old(variableCounter))
    {
      if node.returned.Some? && IsCompound(node.returned.value) {
        var newAssignments, newValue := ExtractNestedOperations(node.returned.value);
        newAssignments := newAssignments + [Return(Some(newValue))];
        result := Lowering.Expanded(newAssignments);
      } else {
        result := Lowering.Kept(node);
      }
    }

    /** An assignment of an operation expands, keeping its targets; any other is kept. */
    method VisitAssign(node: Stmt) returns (result: Lowering.Visited)
      requires node.Assign?
      modifies this
      ensures Lowering.Step(result, variableCounter) == Lowering.VisitAssign(node, old(variableCounter))
    {
      if IsOperation(node.value) {
        var newAssignments, newValue := ExtractNestedOperations(node.value);
        newAssignments := newAssignments + [Assign(node.targets, newValue)];
        result := Lowering.Expanded(newAssignments);
      } else {
        result := Lowering.Kept(node);
      }
    }

    /** The visitor's dispatch on the kind of a statement of a function body. */
    method Visit(node: Stmt) returns (result: Lowering.Visited)
      modifies this
      ensures Lowering.Step(result, variableCounter) == Lowering.Visit(node, old(variableCounter))
    {
      match node
      case Return(_) =>
        result := VisitReturn(node);
      case Assign(_, _) =>
        result := VisitAssign(node);
      case OtherStmt(_) =>
        result := Lowering.Kept(node);
    }

    /**
     * Resets the counter, visits the body in order, splices every answer into a new
     * body and stores that body in the node, which is returned.
     */
    method VisitFunctionDef(node: FunctionDef) returns (result: FunctionDef)
      modifies this, node
      ensures result == node
      ensures node.body == Lowering.RewriteFunction(old(node.body)).body
      ensures variableCounter == Lowering.RewriteFunction(old(node.body)).next
    {
      variableCounter := 0;
      var body := node.body;
      var newBody := [];
      var i := 0;
      while i < |body|
        invariant 0 <= i <= |body|
        invariant body == old(node.body)
        invariant Lowering.RewriteBody(body[..i], 0) == Lowering.Rewritten(newBody, variableCounter)
      {
        var newStmt := Visit(body[i]);
        assert body[..i + 1][..i] == body[..i];
        match newStmt {
          case Expanded(stmts) =>
            newBody := newBody + stmts;
          case Kept(stmt) =>
            newBody := newBody + [stmt];
        }
        i := i + 1;
      }
      assert body[..i] == body;
      node.body := newBody;
      result := node;
    }
  }
}
