/** The two loops of the associative operators as they are written: a list of terms that grows while it
    is iterated, and the backward pass of a sum that removes and inserts terms in place. */
module SimplifierLoops {
  import opened Results
  import opened Expressions
  import opened Simplifier

  function WithLog(log: seq<Rewrite>, r: Result<Collected>): Result<Collected> {
    if r.Ok? then Ok(r.value.(log := log + r.value.log)) else Error
  }

  lemma WithLogTwice(a: seq<Rewrite>, b: seq<Rewrite>, r: Result<Collected>)
    ensures WithLog(a, WithLog(b, r)) == WithLog(a + b, r)
  {
    if r.Ok? {
      assert a + (b + r.value.log) == (a + b) + r.value.log;
    }
  }

  // What one turn of the loop makes of the pending terms, the total and the kept terms, for a first pending
  // term that simplifies to `t`.

  function NextPending(op: AssOp, rest: seq<Expr>, t: Expr): seq<Expr> {
    if !IsConstant(t) && t.Ass? && op.HasInstance(t.ass) then rest + t.terms else rest
  }

  function NextTotal(op: AssOp, total: int, t: Expr): int {
    if IsConstant(t) then Operation(op, total, ConstantOf(t)) else total
  }

  function NextKept(op: AssOp, kept: seq<Expr>, t: Expr): seq<Expr> {
    if IsConstant(t) || (t.Ass? && op.HasInstance(t.ass)) then kept else kept + [t]
  }

  lemma CollectTurn(op: AssOp, pending: seq<Expr>, total: int, kept: seq<Expr>, log: seq<Rewrite>)
    requires pending != [] && Simplify(pending[0]).Ok?
    ensures var Simp(t, more) := Simplify(pending[0]).value;
            && WithLog(log, Collect(op, pending, total, kept)) ==
               WithLog(log + more, Collect(op, NextPending(op, pending[1..], t), NextTotal(op, total, t),
                                        NextKept(op, kept, t)))
            && WeightAll(NextPending(op, pending[1..], t)) < WeightAll(pending)
  {
    var Simp(t, more) := Simplify(pending[0]).value;
    WithLogTwice(log, more, Collect(op, NextPending(op, pending[1..], t), NextTotal(op, total, t),
                                    NextKept(op, kept, t)));
    if t.Ass? {
      WeightConcat(pending[1..], t.terms);
    }
  }

  lemma CollectFails(op: AssOp, pending: seq<Expr>, total: int, kept: seq<Expr>)
    requires pending != [] && Simplify(pending[0]).Error?
    ensures Collect(op, pending, total, kept) == Error
  {
  }

  lemma CollectEnds(op: AssOp, total: int, kept: seq<Expr>, log: seq<Rewrite>)
    ensures WithLog(log, Collect(op, [], total, kept)) == Ok(Collected(total, kept, log))
  {
    assert log + [] == log;
  }

  /** The loop over `all_terms` ends, although it appends to the list it iterates, and computes `Collect`. */
  method CollectTerms(op: AssOp, terms: seq<Expr>) returns (r: Result<Collected>)
    ensures r == Collect(op, terms, NeutralElement(op), [])
  {
    hide Collect, Weight, WeightAll, Simplify;
    var allTerms, i := terms, 0;
    var total, kept := NeutralElement(op), [];
    var log: seq<Rewrite> := [];
    ghost var pending := terms;
    ghost var goal := Collect(op, terms, total, kept);
    LogStarts(goal);
    while i < |allTerms|
      invariant 0 <= i <= |allTerms| && pending == allTerms[i..]
      invariant WithLog(log, Collect(op, pending, total, kept)) == goal
      decreases WeightAll(pending)
    {
      var s := Simplify(allTerms[i]);
      if s.Error? {
        CollectFails(op, pending, total, kept);
        return Error;
      }
      var t := s.value.e;
      CollectTurn(op, pending, total, kept, log);
      pending, i, log := NextPending(op, pending[1..], t), i + 1, log + s.value.log;
      if IsConstant(t) {
        total := Operation(op, total, ConstantOf(t));
      } else if t.Ass? && op.HasInstance(t.ass) {
        allTerms := allTerms + t.terms;
      } else {
        kept := kept + [t];
      }
    }
    CollectEnds(op, total, kept, log);
    return Ok(Collected(total, kept, log));
  }

  lemma LogStarts(r: Result<Collected>)
    ensures WithLog([], r) == r
  {
    if r.Ok? {
      assert [] + r.value.log == r.value.log;
    }
  }

  /** The search for the complement of a term: the negation is built for each comparison. */
  method FindComplement(term: Expr, terms: seq<Expr>) returns (r: Result<nat>)
    ensures r.Error? <==> terms != [] && Negate(term).Error?
    ensures r.Ok? ==> r.value <= |terms|
    ensures r.Ok? && terms != [] ==>
      if Negate(term).value.e in terms then r.value < |terms| && r.value == IndexOf(Negate(term).value.e, terms)
      else r.value == |terms|
  {
    var j := 0;
    while j < |terms|
      invariant 0 <= j <= |terms|
      invariant j > 0 ==> Negate(term).Ok?
      invariant forall k :: 0 <= k < j ==> terms[k] != Negate(term).value.e
    {
      var n := Negate(term);
      if n.Error? {
        return Error;
      }
      if terms[j] == n.value.e {
        IndexIsFirst(n.value.e, terms, j);
        return Ok(j);
      }
      j := j + 1;
    }
    return Ok(j);
  }

  /** The backward pass over the terms of a sum computes `Cancel`. */
  method CancelTerms(expression: seq<Expr>) returns (r: Result<seq<Expr>>)
    ensures r.Ok? <==> Cancel(expression).Ok?
    ensures r.Ok? ==> r.value == Cancel(expression).value.terms
  {
    hide Weight, WeightAll, Negate;
    var terms: seq<Expr> := [];
    var k := |expression|;
    while k > 0
      invariant 0 <= k <= |expression|
      invariant Cancel(expression[k..]).Ok? && terms == Cancel(expression[k..]).value.terms
    {
      k := k - 1;
      var term := expression[k];
      assert expression[k..][0] == term && expression[k..][1..] == expression[k + 1..];
      var found := FindComplement(term, terms);
      if found.Error? {
        ErrorPropagates(expression, k);
        return Error;
      }
      var j := found.value;
      terms := if j < |terms| then terms[..j] + terms[j + 1..] else [term] + terms;
    }
    assert expression[k..] == expression;
    return Ok(terms);
  }

  lemma {:induction false} ErrorPropagates(expression: seq<Expr>, k: nat)
    requires k <= |expression| && Cancel(expression[k..]).Error?
    ensures Cancel(expression).Error?
  {
    if k > 0 {
      assert expression[k - 1..][1..] == expression[k..];
      ErrorPropagates(expression, k - 1);
    } else {
      assert expression[k..] == expression;
    }
  }

  lemma {:induction false} IndexIsFirst(e: Expr, terms: seq<Expr>, j: nat)
    requires j < |terms| && terms[j] == e && forall k :: 0 <= k < j ==> terms[k] != e
    ensures IndexOf(e, terms) == j
  {
    var i := IndexOf(e, terms);
    assert i == j;
  }

  /** In the final list no later term is the negation of an earlier one. */
  predicate NoComplements(terms: seq<Expr>) {
    forall i, j :: 0 <= i < j < |terms| && Negate(terms[i]).Ok? ==> terms[j] != Negate(terms[i]).value.e
  }

  lemma {:induction false} CancelLeavesNoComplements(terms: seq<Expr>)
    requires Cancel(terms).Ok?
    ensures NoComplements(Cancel(terms).value.terms)
  {
    if terms != [] {
      CancelLeavesNoComplements(terms[1..]);
      var kept := Cancel(terms[1..]).value.terms;
      if kept != [] {
        var n := Negate(terms[0]).value.e;
        if n in kept {
          DropKeepsNoComplements(kept, IndexOf(n, kept));
        } else {
          var all := [terms[0]] + kept;
          forall i, j | 0 <= i < j < |all| && Negate(all[i]).Ok?
            ensures all[j] != Negate(all[i]).value.e
          {
            assert all[j] == kept[j - 1] && (i > 0 ==> all[i] == kept[i - 1]);
          }
        }
      }
    }
  }

  lemma DropKeepsNoComplements(terms: seq<Expr>, k: nat)
    requires k < |terms| && NoComplements(terms)
    ensures NoComplements(terms[..k] + terms[k + 1..])
  {
    var less := terms[..k] + terms[k + 1..];
    forall i, j | 0 <= i < j < |less| && Negate(less[i]).Ok?
      ensures less[j] != Negate(less[i]).value.e
    {
      var p, q := if i < k then i else i + 1, if j < k then j else j + 1;
      assert less[i] == terms[p] && less[j] == terms[q];
    }
  }
}
