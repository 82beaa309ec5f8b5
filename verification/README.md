# RecordFlux expression passes

RecordFlux compiles specifications of binary protocols to Ada/SPARK. This project models how the compiler treats
expressions and proves that each step keeps their meaning:

- `Simplifier` and its companions: the rewriting of expressions (De Morgan's laws, flattening with a list that grows
  while it is iterated, folding of constants, cancellation of complementary terms, merging of conditionals). Values are
  exact numbers there, because the code compares constant quotients as fractions; the same proofs cover quotients that
  are rounded as in the compiled code. `SimplifierSuccess` says where no exception is raised; `SimplifierReduced`,
  `SimplifierClean` and `SimplifierNormal` give the normal forms of simplified lists, numeric expressions and conditions.
- `Lowering` and its companions: the translation to three-address code over fresh temporaries, against a machine that
  runs statements (`Ir`) and an evaluator for expressions over integers (`IntEval`). `LoweringDomain` says which
  expressions are translated, and `LoweringTypes` that the code is statically typed.
- `Checks` and its companions: the insertion of type conversions and of run-time checks. A run stops at the first
  check that fails; facts are evaluated in unbounded integers. `Typing` is about the declared types.
- `Pipeline`, `CompiledSafety` and `SimplifiedSafety`: lowering, conversion and checks together, as for the assignments of
  a state machine, and with simplification in front; `Rounding`: where simplification and compiled code disagree about
  quotients.
- `RustExpr`: simplification and negation of the newer expression library.
- `AdaSyntax` and its companions: printing and parsing of Ada expressions as token strings, by the levels of the
  grammar in section 4.4 of the Ada 2012 Reference Manual. `AdaGrammar` states the grammar as a relation, and
  `AdaNesting` counts the parentheses around each token, which shows what a text can not be parsed to.
- `Types`, `Checksum`, `Optimizer`, `Validator`: the common type of a list, the Internet checksum of RFC 1071, the line
  bookkeeping of the check remover, and the expansion of conditions into alternatives.

Failed assertions, exceptions and panics are the `Error` of a `Result`. Where the source updates values step by step,
a method follows its loops and is proved against a function; the lemmas are about that function. The boolean operators
evaluate all operands unless stated otherwise.

## What does not hold

Some expected properties are false of the code. For each there is a lemma with an input that shows it, and one that says
when the property holds:

- The common type of a list may not hold the values of a constant in it (`CommonTypeNeedNotHoldAConstant`); it does exactly
  if it is universal or `Base_Integer` encloses the constant (`CommonTypeHoldsConstant`).
- Merging conditionals may lose the value (`OverlappingMergeLosesValue`); it is kept exactly if the merge is harmless
  (`MergeIsExact`), and without conditionals nothing is merged (`SimplifyKeepsWithoutConditionals`).
- Repeated terms are dropped from a boolean list before conditionals are merged, so that merging may repeat a term
  (`MergingRepeatsTerm`); without a merge no term is repeated (`RepeatsNeedMerges`).
- A result below the first value of its type passes all checks (`ResultBelowFirstPasses`), and the check of a product
  divides by its right factor (`ZeroProductIsStuck`). `OperationCheckExact` says what the checks decide, and `RunIsSafe`
  what a run that passes them keeps: all values from zero up to the upper bound of their types.
- Negations and conditionals are assigned without checks (`NegationAndConditionalAreUnchecked`): the negation of a variable
  is in its type exactly if the variable is zero (`NegationIsStored`), a conditional exactly if the value of the chosen
  branch is (`ConditionalIsStored`), which is decided for all operations (`ConditionalOperationIsStored`).
- The temporary for the further terms of a sum or product is declared with one type and read with another
  (`RestIsReadWithItsOwnType`), so that an operand may be outside of the target type although all checks pass
  (`ProductEscapesCheck`); it is in range exactly in sums, beside a factor that is not zero, or if it is small enough
  (`MistypedOperandPasses`). The result is in range all the same (`AssignedRunIsSafe`).
- Differences that are simplified before they are lowered change their checks. The tool lowers assignments as they are
  (`rflx/model/statement.py:85-88`) and simplifies before lowering only the conditions of comprehensions
  (`rflx/expr_conv.py:810`); the lemmas are about the composition of the two passes. The difference of two variables becomes a
  sum and loses its check (`NegativeDifferenceIsStored`): the stored value is in range exactly if the check would have passed
  (`DifferenceLosesCheck`, `DifferenceIsChecked`). A subtracted constant becomes a negative one, and valid runs are lost
  (`ValidDifferenceIsLost`): the run completes exactly if the type holds the negated constant, which no scalar type does for a
  positive one (`SubtractedConstantIsNegated`, `SubtractedConstantIsChecked`). Where only constants are subtracted, what does
  complete is safe (`CompiledRunIsSafe`, `CompiledRunIsExact`).
- Simplification compares constant quotients exactly, compiled code rounds them (`QuotientsAreComparedExactly`); the
  outcome is the same exactly if rounding is harmless (`RoundedComparisonIsExact`, `SimplifiedComparisonIsExact`), and it is
  the only loss of divisions (`SimplifyKeepsMeaning`).
- Simplification of a defined expression may raise an exception, because branches that are not chosen are simplified too
  (`UnchosenBranchRaises`). A constant operation is folded exactly if it is defined (`FoldIsExact`), and there is no exception
  if all parts are defined and nothing can be merged (`SimplifySucceeds`).
- A constant modulus with a negative divisor is folded to the divisor if the division is exact
  (`ExactNegativeModulusLosesValue`, `ModFoldIsExact`), and a power of zero to zero also for the exponent zero
  (`ZeroExponentLosesValue`, `ZeroOperand`).
- The first term of a sum is printed without parentheses, so a sum that starts with a relation or a boolean operation is
  read as something else (`RelationInSumIsMisread`); a sum of one such term is read back by itself, but not as a side of a
  relation (`SumOfOneIsReadBack`). A tree is read back exactly if nothing of that kind is in it (`RoundTripIsExact`,
  `SumIsReadBack`).
- The parser folds `and` over a preceding `and then` into one list. The tree is parsed again from its own text exactly if
  no list in it starts with an operation of its own class and every sum starts with a text of numeric level
  (`MixedConjunctionIsNotSettled`, `ReparseIsExact`). The value is kept where no forms are mixed (`UnmixedKeepsValue`), and
  lost exactly where a deciding operand protected one without a truth value (`FlatteningLosesShortCircuit`,
  `TakingOverLosesValue`, `TakingOverPairLosesValue`).
- A disjunction without terms is printed as True (`EmptyDisjunctionPrintsTrue`, `EmptyListKeepsValue`).
- The last byte of an odd-length string is not padded as RFC 1071 says; it makes no difference exactly for a zero byte
  (`OddLengthIsNotPadded`).
- A goto that is not alone in its own if block spoils the recorded line numbers (`UntidyText`,
  `GotoAfterBlockIsUntidy`); the bookkeeping
  is exact exactly if every goto with an assertion stands alone in its own block (`BookkeepingIsExact`,
  `TidyIsPlacement`).

## Model

| member | source | states |
|---|---|---|
| Types.CommonTypeAssociative | librapidflux/src/ty.rs:124-186 | the common type of two types is commutative and associative on the scalar types |
| Types.CommonTypePermutation | librapidflux/src/ty.rs:254-256 | the common type of a list does not depend on the order of the list |
| Types.CommonTypeCovers | librapidflux/src/ty.rs:254-256 | every member is compatible with a defined common type, and the bounds of a universal result enclose those of every universal member |
| Types.CommonBoundsAreTight | librapidflux/src/ty.rs:584-589 | both ends of a universal result belong to a member, so the merged bounds are the least ones |
| Types.CommonTypeHoldsConstant | librapidflux/src/ty.rs:144-146 | a defined common type holds the values of a universal member if and only if it is universal itself or `Base_Integer` encloses the member |
| Types.CommonTypeNeedNotHoldAConstant | librapidflux/src/ty.rs:144-146 | an input for the failing half: a negative constant and an integer type have the common type `Base_Integer`, which does not hold the constant |
| Types.CommonTypeOfMembers | librapidflux/src/ty.rs:124-186 | the common type as a function of the members alone: of nothing but `Any` it is `Any`, of one member that member, of universal integers universal, of one enumeration that enumeration, and of two or more integers with a declared one among them `Base_Integer`, also if they are of the same declared type; it is defined if and only if nothing is undefined and the members are integers only or one enumeration |
| Types.CommonTypeIsDefined | librapidflux/src/ty.rs:254-256 | a list of types has a common type if and only if every two members are compatible |
| Types.StrongIsInclusion | librapidflux/src/ty.rs:108-117 | for integers the strong relation is inclusion of values for a constant and equality for declared types; it is symmetric and implies the weak one |
| Simplifier.Simplify | rflx/expr.py:144-150 | simplification ends and never increases the weight, a measure in which `Not` and `Neg` double and a relation or subtrahend counts twice |
| Simplifier.SimplifyNot | rflx/expr.py:189-217 | De Morgan's law with its two nested simplifications stays within twice the weight of the operand |
| Simplifier.Collect | rflx/expr.py:340-371 | the pending work of the loop that appends to the list it iterates strictly decreases, and terms, constants and pending terms together never gain weight |
| Simplifier.MergeIfs | rflx/expr.py:396-432 | merging conditionals, with the nested simplification of the joined condition, ends and does not increase the weight |
| Simplifier.FirstMergeable | rflx/expr.py:405-412 | the search returns the first later conditional with the same expression and else part |
| Simplifier.Cancel | rflx/expr.py:742-759 | the cancellation pass with its negations ends and does not increase the weight |
| Simplifier.Negate | rflx/expr.py:770-771 | unary minus, with the simplification inside the negation of a product, ends and at most doubles the weight |
| Simplifier.SimplifyRel | rflx/expr.py:1583-1635 | the simplification of a relation never makes it heavier than twice its operands |
| SimplifierMeaning.SimplifyKeeps | rflx/expr.py:144-150 | a simplified expression has the value of the original one, with exact or with rounded quotients, in every environment where that is defined and where the merges and, for rounded quotients, the comparisons of constant quotients are harmless |
| SimplifierMeaning.NegateKeeps | rflx/expr.py:732-733 | unary minus of every kind of expression denotes arithmetic negation |
| SimplifierMeaning.NotKeeps | rflx/expr.py:189-217 | negation, De Morgan's laws and relation inversion keep the value |
| SimplifierMeaning.CollectKeeps | rflx/expr.py:345-358 | the running total combined with the kept and the pending terms has the same value at every turn of the loop |
| SimplifierMeaning.UniqueKeeps | rflx/expr.py:373-377 | dropping repeated terms keeps a conjunction or disjunction |
| SimplifierMeaning.InverseDecides | rflx/expr.py:379-389 | a list with a relation and its inverse has the value the code returns for it |
| SimplifierMeaning.AbsorbKeeps | rflx/expr.py:498-502 | a conjunction that contains False is False, and dually |
| SimplifierMeaning.MergeIsExact | rflx/expr.py:396-432 | merging two conditionals keeps the value if and only if the merge is harmless |
| SimplifierMeaning.ExclusiveNeutralIsHarmless | rflx/expr.py:396-432 | exclusive conditions and the neutral element as else part make a merge harmless |
| SimplifierMeaning.OverlappingMergeLosesValue | rflx/expr.py:396-432 | `(if A then 1 else 0) + (if A then 1 else 0)` is simplified to `if A then 1 else 0`, which has half its value |
| SimplifierMeaning.CancelKeeps | rflx/expr.py:742-759 | cancelling complementary terms keeps the sum |
| SimplifierMeaning.FoldBinKeeps | rflx/expr.py:811-900 | folding of constants in differences, exact quotients, powers and moduli keeps the value |
| SimplifierMeaning.RelKeeps | rflx/expr.py:1583-1635 | equal operands, constants, quotients compared as fractions and comparisons with True or False keep the value |
| SimplifierMeaning.IfKeeps | rflx/expr.py:1847-1864 | a conditional with a constant condition or equal branches keeps its value |
| SimplifierLoops.CollectTerms | rflx/expr.py:340-358 | the loop over the growing list ends and computes the recursive definition, with total, kept terms and failures |
| SimplifierLoops.FindComplement | rflx/expr.py:748-752 | the search finds the first term equal to the negation, and fails exactly if a negation is needed and fails |
| SimplifierLoops.CancelTerms | rflx/expr.py:742-759 | the backward pass that removes from and inserts into its list computes the recursive definition |
| SimplifierLoops.CancelLeavesNoComplements | rflx/expr.py:742-759 | in the final list of a sum no later term equals the negation of an earlier one |
| SimplifierReduced.ListIsReduced | rflx/expr.py:340-390 | if the simplification of a sum, product or boolean list is such a list again, it has no term of its own class, not just one term, at most one constant, and no neutral one in a sum or product; a sum has no term beside its negation; a boolean list has no repeated term (but for conditionals), no relation beside its inverse and no deciding constant |
| SimplifierRepeats.IrreducibleStays | rflx/expr.py:340-371 | a list with nothing to fold, flatten, drop, merge or cancel is left as it is, in the same order |
| SimplifierRepeats.RepeatsNeedMerges | rflx/expr.py:360-368 | a simplified boolean list has a repeated term only if conditionals were merged |
| SimplifierRepeats.MergingRepeatsTerm | rflx/expr.py:396-432 | an input with a repeated term: merging the conditionals over A and over B yields the third one, which is over `A or B` |
| SimplifierRepeats.MergedInPairs | rflx/expr.py:396-432 | conditionals that differ only in the condition are merged in pairs: each pair gets the simplified disjunction of its conditions, and the last one of an odd number is left |
| SimplifierClean.SimplifyIsClean | rflx/expr.py:811-900 | the normal form of numeric expressions, at every depth: no difference is left, a minus sign stands only before a variable, a field, a power or a modulus, no power or modulus of two constants is left, and no list has one term |
| SimplifierClean.NegateIsClean | rflx/expr.py:732-733 | unary minus keeps this form |
| SimplifierNormal.SimplifyIsNormal | rflx/expr.py:189-217 | the normal form of conditions, at every depth: a negation stands only before a variable, a field or a literal, and every list is reduced and without boolean literals |
| SimplifierNormal.RelationIsSettled | rflx/expr.py:1583-1635 | a relation becomes a literal if and only if its simplified operands decide it, and stays a relation if and only if it is neither decided nor a comparison with True or False, of which the other operand is left, negated exactly where it should be |
| SimplifierNormal.ConditionalIsSettled | rflx/expr.py:1847-1864 | a conditional stays one if and only if it has an elsif part or its condition is open and its branches differ |
| SimplifierNormal.ConstantIsNegated | rflx/expr.py:189-193 | the negation of a boolean literal is the other literal |
| SimplifierShape.SimplifyPlain | rflx/expr.py:340-371 | simplification introduces no division, no conditional, no relation, no variable and no empty disjunction or product; it merges only conditionals, and compares quotients only where there are relations and divisions |
| SimplifierShape.SimplifyKeepsWithoutConditionals | rflx/expr.py:144-150 | an expression without conditionals keeps its exact value without any premise on merges |
| SimplifierSuccess.SimplifySucceeds | rflx/expr.py:144-150 | if every part of an expression is defined, also branches that are not chosen, and each list holds at most one conditional, simplification raises no exception, merges nothing, and its result meets the condition again |
| SimplifierSuccess.PlainSucceeds | rflx/expr.py:144-150 | without conditionals it is enough that the whole expression has a value, which is then kept |
| SimplifierSuccess.FoldIsExact | rflx/expr.py:811-900 | an operation on constants is folded without an exception if and only if it is defined |
| SimplifierSuccess.UnchosenBranchRaises | rflx/expr.py:1847-1864 | an input outside of the condition: `if A then 1 else 1 / 0` has the value 1 where A holds, but its simplification raises an exception |
| SimplifierSuccess.NegateSucceeds | rflx/expr.py:732-733 | nor does unary minus of a defined number |
| Identifiers.TempIndexOfName | rflx/identifier.py:14-18 | the counter can be read back from a generated name, so generated names are pairwise distinct |
| Identifiers.IdGenerator.Next | rflx/identifier.py:14-18 | each call returns the name with the current number and advances the number by one |
| LoweringDomain.ToIrSucceeds | rflx/expr_conv.py:222-338 | an expression is translated if and only if its operands have the kinds that their operators need, its boolean lists are joined by `and` or `or`, its conditionals have one condition and an else part, and its fields are scalar; the state of the generator has no influence |
| LoweringDomain.TranslatableIsCorrect | rflx/expr_conv.py:222-338 | every such expression is translated, and the code has its value |
| LoweringMeaning.ToIrCorrect | rflx/expr_conv.py:222-338 | compiler correctness for every translation that succeeds (`ToIrSucceeds` says which do): running the statements and then evaluating the expression gives the integer value of the source expression, and only temporaries of this lowering change |
| LoweringMeaning.BoolToIrCorrect | rflx/expr_conv.py:236-268 | the same for the n-ary boolean operators, whose right part is computed before the left operand |
| LoweringMeaning.MathToIrCorrect | rflx/expr_conv.py:284-325 | the same for sums and products, whose temporary is numbered before and assigned before the left operand is computed |
| LoweringMeaning.RelToIrCorrect | rflx/expr_conv.py:697-704 | the same for relations over integers, booleans and enumerations |
| LoweringMeaning.IfToIrCorrect | rflx/expr_conv.py:723-766 | the same for conditionals, whose branches keep their own statements |
| LoweringMeaning.ToBasicIntCorrect | rflx/expr_conv.py:890-909 | the integer operand is basic, has the value of the expression and is not changed by later temporaries |
| LoweringMeaning.ToBasicBoolCorrect | rflx/expr_conv.py:912-930 | the same for boolean operands |
| LoweringMeaning.ToBasicCorrect | rflx/expr_conv.py:933-975 | the same for operands of any scalar type |
| LoweringMeaning.EmptyListLowering | rflx/expr_conv.py:286-287 | the lowering of an empty list has the value of the list exactly for conjunctions and sums |
| LoweringShape.ToIrShaped | rflx/expr_conv.py:222-338 | each temporary of a lowering is declared once and assigned once, before it is read on any path, nothing else is written, and operands of operations are basic |
| LoweringCost.ToIrCost | rflx/expr_conv.py:890-975 | a lowering draws exactly one temporary for each operand that is not basic already, and one for each operand of a list beyond the second |
| LoweringCost.BasicCode | rflx/expr_conv.py:890-975 | the operands without a temporary are exactly the numbers, literals and variables of the needed kind, and lists with at most one term |
| LoweringTypes.ToIrTyped | rflx/expr_conv.py:222-338 | lowered code is statically typed: each temporary is assigned with the type it was declared with, which is compatible with the value, it is read as a boolean, an integer or a value of its enumeration accordingly, and every operand has the type that its operator needs, also in the branches of conditionals |
| LoweringTypes.ToBasicTyped | rflx/expr_conv.py:933-975 | the same for the operands of relations, whose temporaries may be of any scalar type |
| LoweringTypes.OperandKeepsType | rflx/expr_conv.py:890-909 | an operand of a declared integer type is kept in this type, in a temporary or not; a temporary for a computed constant is of type `Base_Integer` |
| LoweringTypes.TypeIsKept | rflx/expr_conv.py:222-338 | the type of the code is that of the source, but for the ranges of integers |
| LoweringGenerator.Translate | rflx/expr_conv.py:222-338 | the translation that draws from the shared generator returns what the specification computes and leaves the generator at its next number |
| LoweringGenerator.TranslateBool | rflx/expr_conv.py:236-268 | the same for the boolean operators |
| LoweringGenerator.TranslateMath | rflx/expr_conv.py:284-325 | the same for sums and products |
| LoweringGenerator.TranslateIf | rflx/expr_conv.py:723-766 | the same for conditionals |
| LoweringGenerator.TranslateBasicInt | rflx/expr_conv.py:890-909 | the same for integer operands |
| LoweringGenerator.TranslateBasicBool | rflx/expr_conv.py:912-930 | the same for boolean operands |
| LoweringGenerator.TranslateBasic | rflx/expr_conv.py:933-975 | the same for operands of relations |
| Checks.ConvertStatements | rflx/ir.py:2154-2199 | the loop that appends converted statements computes the recursive definition, with its failed assertions |
| Checks.EmitChecks | rflx/ir.py:2313-2314 | the inner loop appends the facts and the check of every precondition in order |
| Checks.CheckStatements | rflx/ir.py:2305-2362 | the loop that puts checks in front of statements computes the recursive definition and threads the generator |
| Typing.ConversionIsLeast | rflx/ir.py:2202-2252 | after conversion the value, or both operands of an operation, are strongly compatible with the target; an expression is changed if and only if that was not so before, and converting twice is converting once |
| Typing.OperationIsTyped | rflx/ir.py:1013-1222 | the check of an operation compares integers, and its fact declares one temporary of type `Base_Integer` and assigns it a value compatible with that type |
| Typing.RangeIsTyped | rflx/ir.py:1636-1659 | both sides of the two checks of a conversion have type `Base_Integer` |
| Typing.RequiredChecksAreTyped | rflx/ir.py:2365-2387 | both passes keep code statically typed, and every temporary of the checks is declared and assigned with type `Base_Integer`, which is compatible with the assigned value |
| ChecksMeaning.ConvertValue | rflx/ir.py:2203-2252 | a conversion changes no value; a converted operation is defined only if the original one is |
| ChecksMeaning.InstrumentationIsTransparent | rflx/ir.py:2305-2362 | if the instrumented program runs to its end, so does the original one, and both end in environments that differ in fresh temporaries only |
| ChecksMeaning.CheckCodeWrites | rflx/ir.py:1013-1067 | facts write only temporaries that were drawn for them |
| ChecksCost.InstrumentationCost | rflx/ir.py:2305-2314 | instrumented code has exactly one check for each operation and each field and two for each conversion, with two statements and one temporary for the fact of each sum, product and power |
| ChecksMeaning.OperationCheckExact | rflx/ir.py:1101-1139 | the check of an operation passes if and only if its result is within the upper bound, not below zero for a difference, and its divisor is not zero |
| ChecksMeaning.RangeChecksExact | rflx/ir.py:1636-1659 | the two checks of a conversion pass if and only if the argument is in the target type |
| ChecksMeaning.ChecksAreExact | rflx/ir.py:220-225 | the checks of an expression with all its operands pass if and only if every conversion and operation it contains is in order, and otherwise stop the run |
| ChecksSafety.InstrumentedRunIsExact | rflx/ir.py:2305-2362 | over whole programs, also those that are undefined without checks: as long as the facts have values, the instrumented run stops at a failing check if something along the original run is out of order, and otherwise ends in the same way as the original run, with an environment that differs in fresh temporaries only |
| ChecksSafety.WellTypedRunIsExact | rflx/ir.py:2305-2362 | the same for every well-typed program, where only a zero factor, an undefined validity of a field, an undefined negation or conditional, or a conversion of the program itself can leave a fact without a value |
| ChecksSafety.ZeroDivisorFails | rflx/ir.py:1150-1222 | in particular a quotient or modulus by zero, which is undefined without checks, stops the instrumented run at a failing check |
| ChecksSafety.OperationCompletes | rflx/ir.py:1013-1222 | an operation of any of the six kinds on two variables of the target type stores its result if that is in range, and stops at a failing check otherwise |
| ChecksSafety.OperationIsSafe | rflx/ir.py:1013-1222 | for operands from zero up to the upper bound of a scalar type, a result whose check passes is there too; for operands in the whole type, sums, and products and powers with a positive right operand, are in the whole type |
| ChecksSafety.PassedIsSafe | rflx/ir.py:2214-2238 | if the checks of a converted operation pass, its operands fit the target type, it does not divide by zero and its result is in range |
| ChecksSafety.AssignmentIsSafe | rflx/ir.py:202-225 | if the checks of an assignment with any of the six operations pass, the assigned value fits the type of the target |
| ChecksSafety.RunIsSafe | rflx/ir.py:2365-2387 | in every run of an instrumented well-typed program each statement whose checks pass is safe, and every variable keeps a value from zero up to the upper bound of its type, even if right operands of sums and products are read with another type; it keeps to the whole type if differences, quotients and moduli have targets that start at zero |
| ChecksSafety.ResultBelowFirstPasses | rflx/ir.py:1079-1089 | a difference below the first value of its type passes all checks |
| ChecksSafety.NegationAndConditionalAreUnchecked | rflx/ir.py:220-225 | a negation or a conditional of the target type, with the code in its branches, is assigned without any check |
| ChecksSafety.NegationIsStored | rflx/ir.py:220-225 | the run stores the negation of any variable of the type, and it is in the type if and only if the variable is zero |
| ChecksSafety.ConditionalIsStored | rflx/ir.py:220-225 | the run stores the value of the chosen branch of a conditional without any check |
| ChecksSafety.ResultInType | rflx/ir.py:1013-1222 | the result of each of the six operations on two values of a type is in the type if and only if the check of the operation passes and the result is not below the first value |
| ChecksSafety.ConditionalOperationIsStored | rflx/ir.py:220-225 | an operation of any of the six kinds in the chosen branch, whichever that is, is stored in any case, and is in the type if and only if this condition holds |
| ChecksSafety.ZeroProductIsStuck | rflx/ir.py:1134-1138 | the fact of a product divides by the right factor, so that a product with a zero factor cannot be run |
| Pipeline.MeaningsAgree | rflx/expr_conv.py:222-338 | the integer value of any expression is its value with rounded quotients; without division it is the exact one |
| Pipeline.SimplifyKeepsMeaning | rflx/expr.py:340-371 | simplification keeps the integer value, with divisions too, where the merges and the comparisons of constant quotients that it makes are harmless |
| Pipeline.PlainKeepsMeaning | rflx/expr.py:340-371 | without conditionals, and without divisions or relations, it always does |
| Pipeline.AssignedRunStoresValue | rflx/model/statement.py:85-88 | lower, assign, convert and check: a run that passes its checks stores the value of the source expression and changes nothing else but temporaries |
| PipelineTypes.AssignmentIsTyped | rflx/model/statement.py:85-88 | the code of an assignment is statically typed, and the temporaries of its checks are of type `Base_Integer` |
| Pipeline.CompiledRunStoresValue | rflx/ir.py:2365-2387 | with simplification in front: the run stores the value of the original expression, where simplification keeps it |
| CompiledSafety.AssignedRunIsSafe | rflx/model/statement.py:85-88 | the compiled assignment of any arithmetic without negations is safe: every statement whose checks pass is safe, and a completed run leaves the target with a value from zero up to its upper bound; where the temporaries are read with the types they are declared with, all operands are in range too |
| CompiledSafety.AssignedRunIsExact | rflx/model/statement.py:85-88 | the run of such code stops at a failing check if and only if an operation or conversion in it is out of order, and otherwise ends as the lowered code does |
| CompiledSafety.AssignedValueIsInRange | rflx/ir.py:2365-2387 | a completed run shows that the value of the source expression itself is in range |
| CompiledSafety.RestIsReadWithItsOwnType | rflx/expr_conv.py:308-325 | without the condition: in `X * 2 * 3` the temporary for `2 * 3` is read as a number from 2 to 3 |
| CompiledSafety.MistypedOperandPasses | rflx/ir.py:1101-1139 | such an operand is not checked against the target type: a sum or product is run to its end exactly if it is within the upper bound, and the operand is in range then if and only if it is one of a sum, or the other factor is not zero, or it is not above the upper bound |
| CompiledSafety.ProductEscapesCheck | rflx/ir.py:2365-2387 | an input: the run of `Y := X * 2 * 3` with X = 0 completes although the second operand is 6 and outside of the type |
| SimplifiedSafety.DifferenceLosesCheck | rflx/expr.py:811-820 | the difference of two variables is simplified to a sum with a negated operand; its run completes for all values, and what it stores is in range if and only if the check of the difference itself would pass |
| SimplifiedSafety.DifferenceIsChecked | rflx/ir.py:1079-1089 | without simplification the run completes if and only if the difference is in range |
| SimplifiedSafety.NegativeDifferenceIsStored | rflx/expr.py:811-820 | an input: for the type 0 .. 10 the difference of 3 and 5 is stored as -2 |
| SimplifiedSafety.SubtractedConstantIsNegated | rflx/expr.py:811-820 | the difference of a variable and a constant is simplified to a sum with the negated constant; its run completes if and only if the type holds the negated constant and the result is within the upper bound, and stops at a failing check otherwise |
| SimplifiedSafety.SubtractedConstantIsChecked | rflx/ir.py:1079-1089 | without simplification the run completes if and only if the type holds the constant and the difference is not negative |
| SimplifiedSafety.ValidDifferenceIsLost | rflx/expr.py:811-820 | an input: for the type 0 .. 10 and X = 5 the assignment of X - 1 stores 4, but stops at a failing check if it is simplified first |
| SimplifiedSafety.PositiveFolds | rflx/expr.py:340-371 | if only constants are subtracted or negated in an expression, no difference and no negation survives its simplification |
| SimplifiedSafety.CompiledRunIsSafe | rflx/ir.py:2365-2387 | such an expression, simplified and compiled, is assigned safely, and a run that completes leaves the target in range; it does not complete where a negated constant survives |
| SimplifiedSafety.CompiledRunIsExact | rflx/ir.py:2365-2387 | which of these runs complete: the run stops at a failing check if and only if an operation or conversion of the lowered code is out of order |
| SimplifiedSafety.CompiledValueIsInRange | rflx/ir.py:2365-2387 | a run that completes shows that the value of the original expression itself is in range |
| Rounding.TruncDivMonotone | rflx/expr.py:1603-1618 | rounding toward zero keeps the order of fractions |
| Rounding.RoundedComparisonIsExact | rflx/expr.py:1603-1618 | fractions compare like their rounded quotients if and only if the quotients differ, or the fractions are equal, or the relation has the same outcome for equal numbers as for the two fractions |
| Pipeline.SimplifiedComparisonIsExact | rflx/expr.py:1603-1618 | the comparison of two inexact constant quotients is simplified to its value over integers exactly under this condition |
| Pipeline.QuotientsAreComparedExactly | rflx/expr.py:1603-1618 | an input for the failing half: `7 / 2 < 15 / 4` is simplified to True although both quotients round to 3 |
| RustExpr.Negated | librapidflux/src/expr.rs:417-441 | negation grows an expression by at most one node |
| RustExpr.Simplified | librapidflux/src/expr.rs:446-533 | simplification ends and never grows an expression |
| RustExpr.NegatedValue | librapidflux/src/expr.rs:417-441 | the negation of every shape denotes arithmetic negation, with division that rounds toward zero |
| RustExpr.NegatedConstant | librapidflux/src/expr.rs:509 | an expression that is simplified to a number has a negation that is simplified to the opposite number |
| RustExpr.NegatedIsNormal | librapidflux/src/expr.rs:509 | the negation of a normal form is a normal form |
| RustExpr.SimplifiedIsNormal | librapidflux/src/expr.rs:446-533 | simplifying twice is simplifying once, for every expression that does not panic |
| RustExpr.NormalBin | librapidflux/src/expr.rs:446-533 | what simplification leaves of an operation: its operands are normal, not both constants, neither is zero and not both are literals, or it is a quotient of two constants that do not divide |
| RustExpr.NormalNeg | librapidflux/src/expr.rs:417-441 | and of a negation: a minus sign stands only before a variable, a power or a modulus |
| RustExpr.ModFoldIsExact | librapidflux/src/expr.rs:489-499 | the fold of a modulus is the `mod` of the target language if and only if the divisor is positive or the division is inexact |
| RustExpr.ZeroOperand | librapidflux/src/expr.rs:501-511 | the fold of an operation on zero is exact if and only if it is not a power with exponent zero |
| RustExpr.SimplifiedKeepsValue | librapidflux/src/expr.rs:446-533 | simplification keeps the value of every defined expression that meets these two conditions |
| RustExpr.NegatedSucceeds | librapidflux/src/expr.rs:417-441 | the negation of a defined expression does not panic |
| RustExpr.SimplifiedSucceeds | librapidflux/src/expr.rs:446-533 | the simplification of such an expression panics if and only if it computes a power of constants whose exponent does not fit into 32 bits |
| RustExpr.ExactNegativeModulusLosesValue | librapidflux/src/expr.rs:489-499 | `4 mod (-2)` is zero but is simplified to -2 |
| RustExpr.ZeroExponentLosesValue | librapidflux/src/expr.rs:510 | `0 ** X` is simplified to 0 although it is 1 where X is zero |
| AdaSyntax.PrintSum | rflx/ada.py:231-238 | the loop that prints a sum yields the bare first term and the other terms in parentheses by precedence |
| AdaSyntax.PrintBool | rflx/ada.py:142-158 | the loop that prints a boolean operation from its last term yields the same text as printing from the first |
| AdaSyntax.ParseMore | rflx/ada_parser.py:1295-1315 | the fold over the operands of a level consumes tokens, so the parser ends |
| AdaGrammar.ParseIsDerivation | rflx/ada_parser.py:303-366 | the parser accepts exactly the texts of the grammar: a text is parsed to a tree if and only if it derives this tree by the rules for expressions, relations, sums, products, factors and primaries, with the longest match |
| AdaGrammar.DerivationIsUnique | rflx/ada_parser.py:303-366 | with the longest match the grammar is unambiguous |
| AdaRoundTrip.PrintThenParse | rflx/ada.py:40-43 | parsing the text of a tree yields the tree with lists of one term removed and first terms of the same class flattened |
| AdaRoundTrip.TextParses | rflx/ada_parser.py:1295-1420 | the text of each kind of tree is recognised by the rule of its precedence level, whatever weaker token follows |
| AdaRoundTrip.WrappedParses | rflx/ada.py:40-43 | a child printed under a parent is recognised by the rule for the parent's operands |
| AdaText.ParenthesesOfText | rflx/ada.py:40-43 | the text of every tree has one pair of parentheses for each child that does not bind stronger than its parent, but for the first term of a sum, and one for each conditional, and no others |
| AdaRoundTrip.Descend | rflx/ada_parser.py:295-346 | what a rule of the grammar recognises, all weaker rules recognise unless an operator follows |
| AdaMeaning.NormKeepsValue | rflx/ada_parser.py:1295-1400 | the flattened tree has the value of the tree if all operands are evaluated, and with short-circuit evaluation it has no other value than the tree |
| AdaMeaning.ParsedTextHasValue | rflx/ada_parser.py:1295-1471 | every printed tree is parsed to a tree with the same value under evaluation of all operands |
| AdaMeaning.UnmixedKeepsValue | rflx/ada_parser.py:1295-1400 | where no list takes over the terms of a first term with the other form of its operator, the flattened tree has the same value under both kinds of evaluation |
| AdaMeaning.TakingOverLosesValue | rflx/ada_parser.py:1314-1315 | taking over the terms of a short-circuit list changes the value if and only if that list decides before an operand that is not a truth value, and everything behind it is a truth value |
| AdaMeaning.TakingOverPairLosesValue | rflx/ada_parser.py:1314-1315 | for three operands: if and only if the first decides, the second is not a truth value and the third is |
| AdaMeaning.FlatteningLosesShortCircuit | rflx/ada_parser.py:1314-1315 | an input: `(A and then B) and C` is parsed to `A and B and C`, which is undefined where B is although A is False |
| AdaMeaning.EmptyListKeepsValue | rflx/ada.py:143-145 | the text of a boolean operation without terms has its value if and only if it is a conjunction |
| AdaMeaning.EmptyDisjunctionPrintsTrue | rflx/ada.py:143-145 | a disjunction without terms is printed as True although its value is False |
| AdaImage.ParsedIsBuilt | rflx/ada_parser.py:1295-1420 | the parser builds no list with fewer than two terms |
| AdaNesting.RoundTripIsExact | rflx/ada.py:40-43 | for every tree whose lists have terms, lists of one term included, parsing undoes printing up to flattening if and only if, at any depth, sums and both sides of relations start with a text of numeric level and no further term of a boolean list is a boolean operation by its text |
| AdaNesting.SumIsReadBack | rflx/ada.py:231-238 | the text of a sum of readable terms can be read back if and only if the text of its first term is of numeric level |
| AdaNesting.SumOfOneIsReadBack | rflx/ada.py:231-238 | a sum of one term is read back as the term; as a side of a relation it is read back if and only if the text of the term is of numeric level |
| AdaNesting.FixedPointIsExact | rflx/ada_parser.py:1295-1420 | a tree, any tree, is parsed from its own text if and only if the parser builds only such lists, no list in it starts with an operation of its own class, and every sum starts with a text of numeric level |
| AdaNesting.ReparseIsExact | rflx/ada_parser.py:1295-1420 | for every text that is accepted: its tree is parsed again from the text of the tree if and only if the last two conditions hold |
| AdaImage.MixedConjunctionIsNotSettled | rflx/ada_parser.py:1314-1315 | the parser builds other trees: `and` after `and then` after `and` yields a tree whose text is parsed to a different one |
| AdaImage.RelationInSumIsMisread | rflx/ada.py:232 | `(A < B) + C` is printed without parentheses and read as `A < B + C` |
| Checksum.InternetChecksum | examples/specs/checksum.py:33-48 | the loop computes the complement of the fold of all words, and fails on the empty string |
| Checksum.WordAt | examples/specs/checksum.py:39-41 | each word has the byte at the even index as its high byte, and a last byte without a partner is a word itself |
| Checksum.FoldRepresentsSum | examples/specs/checksum.py:34-46 | the fold is zero exactly if all words are zero, and otherwise the number from 1 to 65535 equal to the sum of the words modulo 65535 |
| Checksum.ChecksumVerifies | examples/specs/checksum.py:1-14 | a word put into a zeroed 16-bit word makes the recomputed checksum 0 exactly if it is the checksum, or 65535 where the checksum is 0 |
| Checksum.FoldIgnoresOrder | examples/specs/checksum.py:42-46 | the order of the words does not matter |
| Checksum.SwappedChecksum | examples/specs/checksum.py:33-48 | swapping the bytes of every word swaps the bytes of the checksum |
| Checksum.OddLengthIsNotPadded | examples/specs/checksum.py:39-41 | the last byte of a string of odd length is a word itself, which equals the padding of RFC 1071 only for a zero byte |
| Checksum.Complement | examples/specs/checksum.py:48 | the exclusive or of a word with 0xFFFF is its difference to 0xFFFF |
| Checksum.XorWithOnes | examples/specs/checksum.py:48 | bit by bit and for every width: exclusive or with ones is subtraction from them |
| Optimizer.Instrument | rflx/generator/optimizer.py:97-126 | the loop over the lines computes the text with the inserted assertions and the recorded checks of the line-by-line definition |
| Optimizer.Remove | rflx/generator/optimizer.py:250-262 | the loop keeps exactly the lines that are in no span of a chosen check and are no recorded assertion |
| OptimizerLines.KindOfLine | rflx/generator/optimizer.py:105-116 | the kind of a line is decided by its text after leading white space: if, goto, else and `end if` lines are exactly those that start with these words |
| OptimizerLines.ChecksOfText | rflx/generator/optimizer.py:97-126 | for every text: a check is recorded if and only if a line that starts with `goto` stands between one that starts with `if` and one that starts with `end if`, no line between these two starts with `if` or `else`, no `end if` line is between the first goto line and the last, and the goto is the last one; its line numbers are those of the three lines, moved by the number of checks recorded before and by its own assertion |
| OptimizerLines.AssertionsOfText | rflx/generator/optimizer.py:107-113 | an assertion is inserted directly before a line if and only if it starts with `goto` and an if line is open there |
| OptimizerLines.AssertionIsIndented | rflx/generator/optimizer.py:108-113 | the assertion is always false and has the indentation of its goto |
| OptimizerMeaning.BookkeepingIsExact | rflx/generator/optimizer.py:97-126 | every inserted assertion has a recorded check and no check spans the end of another block, if and only if every goto after an open if line stands alone between it and its `end if` |
| OptimizerMeaning.TidyIsPlacement | rflx/generator/optimizer.py:97-126 | the condition in terms of the lines: every goto before which an assertion is inserted stands between an if line and an `end if`, with no other if, goto or `end if` in between |
| OptimizerMeaning.GotoAfterBlockIsUntidy | rflx/generator/optimizer.py:105-120 | every text of this shape is untidy: a goto between two ends of if blocks gets a check that starts at the if line of the closed block and spans its end |
| OptimizerMeaning.UntidyText | rflx/generator/optimizer.py:105-120 | such a text in full |
| OptimizerMeaning.RecordedBlock | rflx/generator/optimizer.py:116-120 | in such a text every recorded check is that of an if block with a single goto |
| OptimizerMeaning.BlockLines | rflx/generator/optimizer.py:105-120 | the line numbers of a check name the if line, the inserted assertion and the `end if` line of the instrumented text |
| OptimizerMeaning.RemovalIsExact | rflx/generator/optimizer.py:250-262 | for every choice of blocks, removal from the instrumented text leaves the original text without exactly these blocks |
| OptimizerMeaning.NothingRemoved | rflx/generator/optimizer.py:250-262 | leaving out the lines of no block leaves the whole text |
| Validator.ExpandExpression | rflx/validator.py:261-290 | the nested loops over terms, choices and kept alternatives compute the definition, and fail exactly if a simplification fails |
| Validator.SeenBefore | rflx/validator.py:281-288 | the inner loop finds out whether the prover shows the value equal to a kept one |
| Validator.ProductHolds | rflx/validator.py:280 | some choice from the lists holds exactly if something in each list holds |
| Validator.ConjunctionHolds | rflx/validator.py:280 | the simplified conjunction of a choice without repetitions holds exactly if all of the choice holds |
| Validator.ExpandIsEquivalent | rflx/validator.py:261-290 | the disjunction of the returned alternatives has the value of the condition, for every prover that is sound |
| ValidatorSelection.InProduct | rflx/validator.py:280 | the product holds every way of taking one member of each list, and nothing else |
| ValidatorSelection.ProductAt | rflx/validator.py:280 | it is in lexicographic order: for each member of the first list in turn come all choices from the others |
| ValidatorSelection.AlternativeIsSelection | rflx/validator.py:261-290 | every alternative of a conjunction is the simplified conjunction of one member of each disjunction and of all other terms |
| ValidatorSelection.SelectionIsRepresented | rflx/validator.py:261-290 | conversely the conjunction of every such selection is an alternative, or was shown equal to one |
| ValidatorSelection.AlternativeMeansItsMembers | rflx/validator.py:261-290 | an alternative stands for fixed members of the disjunctions: wherever the terms have truth values and the rewrites are sound, it holds if and only if these members and all other terms hold |
| ValidatorSelection.SelectionHasAlternative | rflx/validator.py:261-290 | for a sound prover the members of each selection hold exactly where one fixed alternative does |
| ValidatorSelection.ExpansionFails | rflx/validator.py:280 | the expansion fails if and only if the simplification of some selection fails |
| ValidatorSelection.DistinctInOrder | rflx/validator.py:280-289 | the alternatives are in the order of the choices |
| Validator.DistinctIsDistinct | rflx/validator.py:281-289 | no returned alternative was shown equal to an earlier one |

## Left out

- Expressions: attributes, calls, aggregates, strings, quantifiers, `in`, `rem` in simplification, case expressions,
  conversions and comprehensions. A field is read through a variable prefix only (`Selected`).
- Short-circuit evaluation of `and then` and `or else` in the source language: simplification and lowering are proved for
  the evaluation of all operands; the printer and parser are proved for both.
- Python equality of expressions is equality of trees here; locations, types and bases of numbers are not compared.
- A constant power with a negative exponent is a floating-point number in the Python code and an error here.
- Literals of enumerations are values that differ if their identifiers differ; the order of literals is that of their
  names, as in the code, and no claim is made that it is the order of their values.
- Simplification of a relation between an aggregate or literal and another: only literals and numbers are modelled.
- Statements other than declarations, assignments and checks: field assignments (which pass no target type to their
  preconditions), appends, comprehensions with their own nested checks, and everything about messages and channels.
- ChecksSafety.RunIsSafe: negations and conditionals are not among the assignments of a well-typed program, because they
  are stored without a check; the same holds for `CompiledSafety.AssignedRunIsSafe`. Its exactness lemma
  `WellTypedRunIsExact` speaks of the same programs.
- SimplifierSuccess.SimplifySucceeds: lists with two conditionals are not covered; what a merge that is not harmless makes of
  the values is not followed any further.
- The proof of checks by Z3, process pools, and the removal of checks that are always true, which is switched off in the code.
- Machine arithmetic: `i64` overflow in the Rust code, `i128` bounds, and overflow inside of facts.
- Types: aggregates, sequences, structures, messages and channels, for which the fold depends on the order.
- AdaRoundTrip.PrintThenParse: disjunctions without terms are excluded although they can be read back, because their text has
  another value; sums and products without terms have no text.
- Printing: indentation, line breaks, spaces and the bases of numbers; unary minus and negative numbers, which the grammar
  has no production for; membership tests, case expressions, aggregates, slices, attributes and function calls.
- Parsing: conflicts of the table-driven parser are resolved as by a parser that takes the longest operand.
- Optimizer.Instrument: the text is a sequence of lines; splitting, joining and trimming of the file, white space beyond
  that of ASCII, and the runs of the prover are not modelled. The final assertion of the removal, that no inserted line is
  left, is the first half of `BookkeepingIsExact`.
- SimplifierReduced.ListIsReduced: repeated conditionals are excluded, for the reason given above; the terms of a list below
  the top of a numeric expression are not claimed to be reduced, because unary minus and differences build lists that are not
  simplified again.
- SimplifierNormal.SimplifyIsNormal: conditions with conditionals, and double negations before anything but a variable, field
  or literal, are not covered; the code does not remove double negations.
- Checksum: the extraction of the covered bytes from keyword arguments; the zeroed word may be anywhere.
- Validator.ExpandIsEquivalent: the prover is a parameter that is assumed to be sound, and merges inside of the simplified
  conjunctions are assumed to be harmless.
