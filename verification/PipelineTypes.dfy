/** The static types of compiled assignments. */
module PipelineTypes {
  import opened Types
  import opened Expressions
  import opened Identifiers
  import Ir
  import opened Lowering
  import opened LoweringMeaning
  import opened LoweringShape
  import opened Checks
  import opened Typing
  import opened LoweringTypes
  import opened Pipeline

  lemma AssignedIsCompatible(x: Ir.IExpr, e: Expr, t: Ty)
    requires TypeAgrees(x, e) && t.IsCompatible(ExprType(e)) && !ExprType(e).Any?
    ensures t.IsCompatible(Ir.TypeOf(x))
  {
    hide ExprType, Ir.TypeOf;
  }

  /** Lowering, conversion and checks together: in the code of an assignment all declarations, assignments and values
      agree, and the temporaries of the checks are of type `Base_Integer`. */
  lemma AssignmentIsTyped(e: Expr, x: string, t: Ty, n: nat)
    requires Source(e, n) && TempIndex(x) < n && AssignCode(e, x, t, n).Ok?
    requires t.IsCompatible(ExprType(e)) && !ExprType(e).Any?
    ensures TypedCode(AssignCode(e, x, t, n).value.stmts, n, map[])
    ensures AllBase(AssignCode(e, x, t, n).value.stmts, ToIr(e, n).value.next)
  {
    hide ToIr, AddRequiredChecks, ExprType, AllBase, Typed, TypedCode, Formed;
    var l := ToIr(e, n).value;
    ToIrTyped(e, n, n, map[]);
    TypeIsKept(e, n);
    AssignedIsCompatible(l.expr, e, t);
    ToIrShaped(true, x, e, n, n);
    BodyBelow(l, x, t);
    var d := DeclaredBy(l.stmts, map[]);
    CodeSingle(Ir.Assign(x, l.expr, t), n, d);
    CodeConcat(l.stmts, [Ir.Assign(x, l.expr, t)], n, map[]);
    RequiredChecksAreTyped(Body(l, x, t), l.next, n, map[]);
  }
}
