/** The branching recursion as it is evidently meant to work: every call
    hands its caller's list back as it found it, by deleting in place the
    row it appended once that branch is done. The right child then receives
    exactly the entry list plus the right row, the same rows its own solve
    saw, and the two children of a split together keep every integral point
    of their parent. */
module BranchAndBoundRestored {
  import opened Wrappers
  import opened Simplex
  import opened BranchAndBound

  /** One branch: solve the original problem plus the list E, and recurse
      with that same list on a fractional table. */
  function RestoredFollow(solver: Solver, p: LPProblem, E: seq<Constraint>, depth: nat): (r: Search)
    ensures E <= r.extras
    ensures !r.aborted ==> r.extras == E
    decreases depth, 1
  {
    match solver(WithExtras(p, E))
    case None => Search([], E, false)
    case Some(t) =>
      if IsIntegerSolution(t) then Search([SolutionOf(t)], E, false)
      else RestoredSearch(solver, p, t, E, depth)
  }

  /** `branching` with an in-place deletion of the last row after each
      branch: the left row is appended and then deleted from the caller's
      list, the right row likewise. */
  function RestoredSearch(solver: Solver, p: LPProblem, t: SolvedTableau, E: seq<Constraint>, depth: nat): (r: Search)
    requires !IsIntegerSolution(t)
    ensures E <= r.extras
    ensures !r.aborted ==> r.extras == E
    decreases depth, 0
  {
    if depth == 0 then Search([], E, true)
    else
      var bv := BranchVarSearch(t);
      var left := RestoredFollow(solver, p, E + [LeftRow(bv)], depth - 1);
      if left.aborted then Search(left.found, left.extras, true)
      else
        var popped := left.extras[..|left.extras| - 1];
        var right := RestoredFollow(solver, p, popped + [RightRow(bv)], depth - 1);
        if right.aborted then Search(left.found + right.found, right.extras, true)
        else Search(left.found + right.found, right.extras[..|right.extras| - 1], false)
  }

  /** After a completed left branch the right child is solved, and searched,
      with exactly the entry list plus the right row: nothing of the left
      subtree is left behind in it. */
  lemma RestoredRightChildSeesEntryList(solver: Solver, p: LPProblem, t: SolvedTableau, E: seq<Constraint>, depth: nat)
    requires !IsIntegerSolution(t) && depth > 0
    requires !RestoredFollow(solver, p, E + [LeftRow(BranchVarSearch(t))], depth - 1).aborted
    ensures var bv := BranchVarSearch(t);
            var left := RestoredFollow(solver, p, E + [LeftRow(bv)], depth - 1);
            var right := RestoredFollow(solver, p, E + [RightRow(bv)], depth - 1);
            var r := RestoredSearch(solver, p, t, E, depth);
            r.found == left.found + right.found && r.aborted == right.aborted
  {
    var bv := BranchVarSearch(t);
    var left := RestoredFollow(solver, p, E + [LeftRow(bv)], depth - 1);
    assert left.extras[..|left.extras| - 1] == E;
  }

  /** Adding one row to a system keeps exactly the points of the system that
      also satisfy the row. */
  lemma FeasibleWithExtraRow(p: LPProblem, E: seq<Constraint>, con: Constraint, x: seq<real>)
    requires |p.A| == |p.b| && |x| == 3
    ensures Feasible(WithExtras(p, E + [con]), x) <==> Feasible(WithExtras(p, E), x) && Holds(con, x)
  {
    var q, q' := WithExtras(p, E), WithExtras(p, E + [con]);
    assert |q'.A| == |q.A| + 1 && |q'.b| == |q.b| + 1;
    assert forall i :: 0 <= i < |q.A| ==> q'.A[i] == q.A[i] && q'.b[i] == q.b[i];
    assert q'.A[|q.A|] == con.coeffs && q'.b[|q.b|] == con.bound;
    if Feasible(q', x) {
      assert Satisfies(q'.A[|q.A|], q'.b[|q.b|], x);
    }
  }

  /** The two children of a split keep every integral point of their parent:
      a point with a whole x_k that satisfies the entry system satisfies the
      left system or the right one, and never both. */
  lemma SplitKeepsIntegralPoints(p: LPProblem, E: seq<Constraint>, bv: BranchVar, x: seq<real>)
    requires |p.A| == |p.b| && |x| == 3
    requires 1 <= bv.k <= 3 && !IsIntegral(bv.value)
    requires Feasible(WithExtras(p, E), x) && IsIntegral(x[bv.k - 1])
    ensures Feasible(WithExtras(p, E + [LeftRow(bv)]), x) || Feasible(WithExtras(p, E + [RightRow(bv)]), x)
    ensures !(Feasible(WithExtras(p, E + [LeftRow(bv)]), x) && Feasible(WithExtras(p, E + [RightRow(bv)]), x))
  {
    BranchRowsSplit(bv, x);
    FeasibleWithExtraRow(p, E, LeftRow(bv), x);
    FeasibleWithExtraRow(p, E, RightRow(bv), x);
  }
}
