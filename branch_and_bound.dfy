/** The branch-and-bound search for integer linear programs in three
    decision variables x1, x2, x3: the tableau inspectors, the branching
    rows, the recursive engine with its shared extra-constraint list, and
    the pool of integral solutions with its selector. */
module BranchAndBound {
  import opened Wrappers
  import opened Simplex

  // ---------------------------------------------------------------------
  // Numbers
  // ---------------------------------------------------------------------

  /** `float.is_integer()`, read on an exact value. */
  predicate IsIntegral(r: real)
  {
    r == r.Floor as real
  }

  /** `math.ceil`: the least integer not below r. */
  function Ceil(r: real): (n: int)
    ensures r <= n as real && (n - 1) as real < r
  {
    -((-r).Floor)
  }

  lemma CeilOfFractional(v: real)
    requires !IsIntegral(v)
    ensures Ceil(v) == v.Floor + 1
  {
    assert (v.Floor as real) < v;
  }

  // ---------------------------------------------------------------------
  // Labels of decision variables
  // ---------------------------------------------------------------------

  /** The label "xk" of the k-th decision variable. */
  function DecisionLabel(k: int): (l: string)
    requires 1 <= k <= 3
    ensures IsDecisionLabel(l)
  {
    ['x', ('0' as int + k) as char]
  }

  /** `int(label[1])`: the position of a decision variable, read off its label. */
  function LabelIndex(l: string): (k: int)
    requires IsDecisionLabel(l)
    ensures 1 <= k <= 3 && DecisionLabel(k) == l
  {
    (l[1] as int) - ('0' as int)
  }

  // ---------------------------------------------------------------------
  // Tableau inspectors
  // ---------------------------------------------------------------------

  /** A row of a decision variable whose value is not a whole number. */
  predicate IsFractionalDecisionRow(r: Row)
  {
    IsDecisionLabel(r.name) && !IsIntegral(r.value)
  }

  /** The scan of `is_integer_solution` from row i on, returning false at the
      first fractional decision row. */
  function IntegralFrom(rows: seq<Row>, i: nat): (ok: bool)
    requires i <= |rows|
    ensures ok <==> forall j :: i <= j < |rows| ==> !IsFractionalDecisionRow(rows[j])
    decreases |rows| - i
  {
    if i == |rows| then true
    else if IsFractionalDecisionRow(rows[i]) then false
    else IntegralFrom(rows, i + 1)
  }

  /** `is_integer_solution`: every row labelled x1, x2 or x3 holds a whole
      number; rows of other variables are not looked at. */
  predicate IsIntegerSolution(t: Tableau)
  {
    IntegralFrom(t.rows, 0)
  }

  lemma IntegerSolutionMeans(t: Tableau)
    ensures IsIntegerSolution(t) <==> forall i :: 0 <= i < |t.rows| && IsDecisionLabel(t.rows[i].name) ==> IsIntegral(t.rows[i].value)
  {
    assert IsIntegerSolution(t) == IntegralFrom(t.rows, 0);
  }

  /** The first row in [i, end) that is a fractional decision row, if any. */
  function FirstFractionalRow(rows: seq<Row>, i: nat, end: nat): (r: Option<nat>)
    requires i <= end <= |rows|
    ensures r.Some? ==> i <= r.value < end && IsFractionalDecisionRow(rows[r.value])
    ensures r.Some? ==> forall j :: i <= j < r.value ==> !IsFractionalDecisionRow(rows[j])
    ensures r.None? ==> forall j :: i <= j < end ==> !IsFractionalDecisionRow(rows[j])
    decreases end - i
  {
    if i == end then None
    else if IsFractionalDecisionRow(rows[i]) then Some(i)
    else FirstFractionalRow(rows, i + 1, end)
  }

  /** The branching variable: its position k and its value. */
  datatype BranchVar = BranchVar(k: int, value: real)

  /** `branch_var_search`: the first fractional decision row, in row order,
      among all rows but the objective row. Its callers only ask when the
      table is not integral, so such a row exists. */
  function BranchVarSearch(t: SolvedTableau): (bv: BranchVar)
    requires !IsIntegerSolution(t)
    ensures 1 <= bv.k <= 3 && !IsIntegral(bv.value)
  {
    var r := FirstFractionalRow(t.rows, 0, |t.rows| - 1);
    assert r.Some? by {
      IntegerSolutionMeans(t);
      var i :| 0 <= i < |t.rows| && IsDecisionLabel(t.rows[i].name) && !IsIntegral(t.rows[i].value);
      assert i < |t.rows| - 1;
    }
    BranchVar(LabelIndex(t.rows[r.value].name), t.rows[r.value].value)
  }

  /** The branching variable is read off the first fractional decision row,
      which lies above the objective row. */
  lemma BranchVarIsFirstFractional(t: SolvedTableau)
    requires !IsIntegerSolution(t)
    ensures var bv := BranchVarSearch(t);
            exists i :: 0 <= i < |t.rows| - 1 && t.rows[i] == Row(DecisionLabel(bv.k), bv.value)
                        && forall j :: 0 <= j < i ==> !IsFractionalDecisionRow(t.rows[j])
  {
    var r := FirstFractionalRow(t.rows, 0, |t.rows| - 1);
    IntegerSolutionMeans(t);
    var i :| 0 <= i < |t.rows| && IsDecisionLabel(t.rows[i].name) && !IsIntegral(t.rows[i].value);
    assert i < |t.rows| - 1;
    assert r.Some?;
    assert t.rows[r.value] == Row(DecisionLabel(BranchVarSearch(t).k), BranchVarSearch(t).value);
  }

  // ---------------------------------------------------------------------
  // Branching rows
  // ---------------------------------------------------------------------

  /** One extra constraint coeffs . x <= bound; the source keeps the rows and
      the bounds in two lists that it always extends together. */
  datatype Constraint = Constraint(coeffs: seq<real>, bound: real)

  /** `np.zeros(3)` with `sign` written at index k - 1. */
  function UnitRow(k: int, sign: real): seq<real>
    requires 1 <= k <= 3
  {
    seq(3, j => if j == k - 1 then sign else 0.0)
  }

  /** The left branch: x_k <= floor(v). */
  function LeftRow(bv: BranchVar): Constraint
    requires 1 <= bv.k <= 3
  {
    Constraint(UnitRow(bv.k, 1.0), bv.value.Floor as real)
  }

  /** The right branch: x_k >= ceil(v), written -x_k <= -ceil(v). */
  function RightRow(bv: BranchVar): Constraint
    requires 1 <= bv.k <= 3
  {
    Constraint(UnitRow(bv.k, -1.0), -(Ceil(bv.value) as real))
  }

  predicate Holds(con: Constraint, x: seq<real>)
    requires |x| == 3
  {
    Satisfies(con.coeffs, con.bound, x)
  }

  /** For a fractional v the two branches never overlap, leave no whole value
      of x_k out, and both cut off the point whose x_k is v. */
  lemma BranchRowsSplit(bv: BranchVar, x: seq<real>)
    requires 1 <= bv.k <= 3 && !IsIntegral(bv.value) && |x| == 3
    ensures !(Holds(LeftRow(bv), x) && Holds(RightRow(bv), x))
    ensures IsIntegral(x[bv.k - 1]) ==> Holds(LeftRow(bv), x) || Holds(RightRow(bv), x)
    ensures x[bv.k - 1] == bv.value ==> !Holds(LeftRow(bv), x) && !Holds(RightRow(bv), x)
  {
    var k, v, xk := bv.k, bv.value, x[bv.k - 1];
    assert Dot3(LeftRow(bv).coeffs, x) == xk;
    assert Dot3(RightRow(bv).coeffs, x) == -xk;
    CeilOfFractional(v);
    if IsIntegral(xk) {
      assert xk == xk.Floor as real;
      if xk.Floor > v.Floor {
        assert xk.Floor >= v.Floor + 1;
      }
    }
  }

  // ---------------------------------------------------------------------
  // Solutions read off an integral table
  // ---------------------------------------------------------------------

  /** An entry of the solution pool: the objective value and (x1, x2, x3). */
  datatype Solution = Solution(objective: real, values: seq<real>)

  /** The value `add_solution` leaves in slot k - 1 after scanning rows
      [0, end): the last row labelled xk, or 0 if there is none. */
  function DecisionValue(rows: seq<Row>, k: int, end: nat): real
    requires 1 <= k <= 3 && end <= |rows|
    decreases end
  {
    if end == 0 then 0.0
    else if rows[end - 1].name == DecisionLabel(k) then rows[end - 1].value
    else DecisionValue(rows, k, end - 1)
  }

  /** DecisionValue is the value of the last row labelled xk before `end`,
      and 0 when there is no such row. */
  lemma {:induction false} DecisionValueIsLastOccurrence(rows: seq<Row>, k: int, end: nat)
    requires 1 <= k <= 3 && end <= |rows|
    ensures var v := DecisionValue(rows, k, end);
            || (v == 0.0 && forall i :: 0 <= i < end ==> rows[i].name != DecisionLabel(k))
            || exists i :: 0 <= i < end && rows[i] == Row(DecisionLabel(k), v)
                           && forall j :: i < j < end ==> rows[j].name != DecisionLabel(k)
    decreases end
  {
    if end > 0 && rows[end - 1].name != DecisionLabel(k) {
      DecisionValueIsLastOccurrence(rows, k, end - 1);
    }
  }

  /** The pool entry `add_solution` builds from a table. */
  function SolutionOf(t: SolvedTableau): Solution
  {
    var n := |t.rows|;
    Solution(t.rows[n - 1].value,
             [DecisionValue(t.rows, 1, n - 1), DecisionValue(t.rows, 2, n - 1), DecisionValue(t.rows, 3, n - 1)])
  }

  lemma DecisionValueOfIntegralTable(t: SolvedTableau, k: int)
    requires IsIntegerSolution(t) && 1 <= k <= 3
    ensures IsIntegral(DecisionValue(t.rows, k, |t.rows| - 1))
  {
    var n := |t.rows|;
    var v := DecisionValue(t.rows, k, n - 1);
    DecisionValueIsLastOccurrence(t.rows, k, n - 1);
    if v != 0.0 {
      var i :| 0 <= i < n - 1 && t.rows[i] == Row(DecisionLabel(k), v);
      assert IsDecisionLabel(t.rows[i].name);
    }
  }

  /** The solution of an integral table is a point of whole numbers. */
  lemma IntegralTableGivesIntegralPoint(t: SolvedTableau)
    requires IsIntegerSolution(t)
    ensures |SolutionOf(t).values| == 3
    ensures forall j :: 0 <= j < 3 ==> IsIntegral(SolutionOf(t).values[j])
  {
    var n := |t.rows|;
    DecisionValueOfIntegralTable(t, 1);
    DecisionValueOfIntegralTable(t, 2);
    DecisionValueOfIntegralTable(t, 3);
    assert SolutionOf(t).values[0] == DecisionValue(t.rows, 1, n - 1);
    assert SolutionOf(t).values[1] == DecisionValue(t.rows, 2, n - 1);
    assert SolutionOf(t).values[2] == DecisionValue(t.rows, 3, n - 1);
  }

  // ---------------------------------------------------------------------
  // The constraint systems handed to the solver
  // ---------------------------------------------------------------------

  function Coeffs(E: seq<Constraint>): seq<seq<real>>
  {
    seq(|E|, i requires 0 <= i < |E| => E[i].coeffs)
  }

  function Bounds(E: seq<Constraint>): seq<real>
  {
    seq(|E|, i requires 0 <= i < |E| => E[i].bound)
  }

  /** The original problem with the extra rows E appended below A and b. */
  function WithExtras(p: LPProblem, E: seq<Constraint>): LPProblem
  {
    LPProblem(p.c, p.A + Coeffs(E), p.b + Bounds(E), p.direction)
  }

  /** Deleting the last row of the left system and appending the right row
      gives the original system plus the entry list plus the right row. */
  lemma RightSystem(p: LPProblem, E: seq<Constraint>, left: Constraint, right: Constraint)
    ensures var q := WithExtras(p, E + [left]);
            LPProblem(p.c, q.A[..|q.A| - 1] + [right.coeffs], q.b[..|q.b| - 1] + [right.bound], p.direction)
            == WithExtras(p, E + [right])
  {
    var q := WithExtras(p, E + [left]);
    assert q.A[..|q.A| - 1] == p.A + Coeffs(E);
    assert q.b[..|q.b| - 1] == p.b + Bounds(E);
    assert Coeffs(E + [right]) == Coeffs(E) + [right.coeffs];
    assert Bounds(E + [right]) == Bounds(E) + [right.bound];
  }

  /** The loop of `branching` that stacks the extra rows under the original
      system, one row and one right-hand side at a time. */
  method BuildSystem(A: seq<seq<real>>, b: seq<real>, E: seq<Constraint>) returns (lhs: seq<seq<real>>, rhs: seq<real>)
    ensures lhs == A + Coeffs(E) && rhs == b + Bounds(E)
  {
    lhs, rhs := A, b;
    for i := 0 to |E|
      invariant |lhs| == |A| + i && lhs[..|A|] == A
      invariant forall j :: 0 <= j < i ==> lhs[|A| + j] == E[j].coeffs
      invariant |rhs| == |b| + i && rhs[..|b|] == b
      invariant forall j :: 0 <= j < i ==> rhs[|b| + j] == E[j].bound
    {
      lhs := lhs + [E[i].coeffs];
      rhs := rhs + [E[i].bound];
    }
  }

  // ---------------------------------------------------------------------
  // The search as a function
  // ---------------------------------------------------------------------

  /** What a call of `branching` does, seen from its caller: the pool
      entries it appends in order, the caller's extra-constraint list after
      the call, and whether the search was cut off by the depth bound. */
  datatype Search = Search(found: seq<Solution>, extras: seq<Constraint>, aborted: bool)

  /** One branch (one try block): solve the original problem plus the rows
      `lp`; a solver failure records nothing, an integral table records one
      solution, a fractional one recurses with the list `E`. */
  function FollowBranch(solver: Solver, p: LPProblem, lp: seq<Constraint>, E: seq<Constraint>, depth: nat): (r: Search)
    ensures E <= r.extras
    decreases depth, 1
  {
    match solver(WithExtras(p, lp))
    case None => Search([], E, false)
    case Some(t) =>
      if IsIntegerSolution(t) then Search([SolutionOf(t)], E, false)
      else SearchFrom(solver, p, t, E, depth)
  }

  /** `branching(t, E)` with at most `depth` nested calls: a call beyond the
      bound ends the whole search, as an exception other than
      SimplexException would. The left row is appended to the caller's
      list; the right child receives that list, after the left subtree, with
      its last row dropped and the right row added; the right solve sees
      exactly the entry list plus the right row. */
  function SearchFrom(solver: Solver, p: LPProblem, t: SolvedTableau, E: seq<Constraint>, depth: nat): (r: Search)
    requires !IsIntegerSolution(t)
    ensures E <= r.extras
    ensures !r.aborted ==> |r.extras| > |E|
    decreases depth, 0
  {
    if depth == 0 then Search([], E, true)
    else
      var bv := BranchVarSearch(t);
      var E1 := E + [LeftRow(bv)];
      var left := FollowBranch(solver, p, E1, E1, depth - 1);
      if left.aborted then Search(left.found, left.extras, true)
      else
        var handedRight := left.extras[..|left.extras| - 1] + [RightRow(bv)];
        var right := FollowBranch(solver, p, E + [RightRow(bv)], handedRight, depth - 1);
        Search(left.found + right.found, left.extras, right.aborted)
  }

  /** One step of SearchFrom, with the two branch outcomes named. */
  lemma SearchStep(solver: Solver, p: LPProblem, t: SolvedTableau, E: seq<Constraint>, depth: nat, left: Search, right: Search)
    requires !IsIntegerSolution(t) && depth > 0
    requires var bv := BranchVarSearch(t);
             left == FollowBranch(solver, p, E + [LeftRow(bv)], E + [LeftRow(bv)], depth - 1)
    requires !left.aborted ==>
               |left.extras| > 0 &&
               var bv := BranchVarSearch(t);
               right == FollowBranch(solver, p, E + [RightRow(bv)], left.extras[..|left.extras| - 1] + [RightRow(bv)], depth - 1)
    ensures left.aborted ==> SearchFrom(solver, p, t, E, depth) == Search(left.found, left.extras, true)
    ensures !left.aborted ==> SearchFrom(solver, p, t, E, depth) == Search(left.found + right.found, left.extras, right.aborted)
  {
  }

  /** Sequence concatenation regroups. Stated as a lemma so that `Branching`
      gets this one instance instead of searching for it among its other
      facts. */
  lemma AppendAssoc<T>(a: seq<T>, b: seq<T>, c: seq<T>)
    ensures (a + b) + c == a + (b + c)
  {
  }

  // ---------------------------------------------------------------------
  // Properties of the search
  // ---------------------------------------------------------------------

  /** s is the solution of an integral table the solver returned for the
      original problem with some extra rows. */
  ghost predicate IsLeaf(solver: Solver, p: LPProblem, s: Solution)
  {
    exists E: seq<Constraint> ::
      solver(WithExtras(p, E)).Some? && IsIntegerSolution(solver(WithExtras(p, E)).value)
      && SolutionOf(solver(WithExtras(p, E)).value) == s
  }

  lemma LeafIsIntegralPoint(solver: Solver, p: LPProblem, s: Solution)
    requires IsLeaf(solver, p, s)
    ensures |s.values| == 3 && forall j :: 0 <= j < 3 ==> IsIntegral(s.values[j])
  {
    var E: seq<Constraint> :| solver(WithExtras(p, E)).Some? && IsIntegerSolution(solver(WithExtras(p, E)).value)
                             && SolutionOf(solver(WithExtras(p, E)).value) == s;
    IntegralTableGivesIntegralPoint(solver(WithExtras(p, E)).value);
  }

  lemma {:induction false} FollowFindsOnlyLeaves(solver: Solver, p: LPProblem, lp: seq<Constraint>, E: seq<Constraint>, depth: nat)
    ensures forall s :: s in FollowBranch(solver, p, lp, E, depth).found ==> IsLeaf(solver, p, s)
    decreases depth, 1
  {
    match solver(WithExtras(p, lp))
    case None =>
    case Some(t) =>
      if !IsIntegerSolution(t) {
        SearchFindsOnlyLeaves(solver, p, t, E, depth);
      }
  }

  /** Every solution the search records is an integral leaf of the search
      tree: the solution of an integral table the solver returned for the
      original constraints plus extra rows. */
  lemma {:induction false} SearchFindsOnlyLeaves(solver: Solver, p: LPProblem, t: SolvedTableau, E: seq<Constraint>, depth: nat)
    requires !IsIntegerSolution(t)
    ensures forall s :: s in SearchFrom(solver, p, t, E, depth).found ==> IsLeaf(solver, p, s)
    decreases depth, 0
  {
    if depth > 0 {
      var bv := BranchVarSearch(t);
      var E1 := E + [LeftRow(bv)];
      FollowFindsOnlyLeaves(solver, p, E1, E1, depth - 1);
      var left := FollowBranch(solver, p, E1, E1, depth - 1);
      if !left.aborted {
        var handedRight := left.extras[..|left.extras| - 1] + [RightRow(bv)];
        FollowFindsOnlyLeaves(solver, p, E + [RightRow(bv)], handedRight, depth - 1);
      }
    }
  }

  /** A failed left solve records nothing and does not stop the search: the
      right branch is still solved, and its child gets exactly the entry
      list plus the right row. */
  lemma LeftFailureStillExploresRight(solver: Solver, p: LPProblem, t: SolvedTableau, E: seq<Constraint>, depth: nat)
    requires !IsIntegerSolution(t) && depth > 0
    requires solver(WithExtras(p, E + [LeftRow(BranchVarSearch(t))])).None?
    ensures var bv := BranchVarSearch(t);
            var right := FollowBranch(solver, p, E + [RightRow(bv)], E + [RightRow(bv)], depth - 1);
            SearchFrom(solver, p, t, E, depth) == Search(right.found, E + [LeftRow(bv)], right.aborted)
  {
    var bv := BranchVarSearch(t);
    assert (E + [LeftRow(bv)])[..|E|] == E;
  }

  /** The "pop" after the left branch does not reach the caller: on return
      the caller's list still ends with more rows than it had, the first of
      them the left row of this call. */
  lemma CallerListKeepsLeftRow(solver: Solver, p: LPProblem, t: SolvedTableau, E: seq<Constraint>, depth: nat)
    requires !IsIntegerSolution(t) && depth > 0
    ensures var r := SearchFrom(solver, p, t, E, depth);
            |r.extras| > |E| && r.extras[|E|] == LeftRow(BranchVarSearch(t))
  {
    var bv := BranchVarSearch(t);
    var E1 := E + [LeftRow(bv)];
    var left := FollowBranch(solver, p, E1, E1, depth - 1);
    assert E1 <= left.extras;
    assert left.extras[|E|] == E1[|E|];
  }

  /** A table the solver returns for q describes a point (x1, x2, x3) that
      satisfies all the constraints of q. */
  ghost predicate ReturnsFeasible(solver: Solver, q: LPProblem)
  {
    solver(q).Some? ==> Feasible(q, SolutionOf(solver(q).value).values)
  }

  /** The solver is sound when it returns feasible points only. */
  ghost predicate SoundSolver(solver: Solver)
  {
    forall q :: ReturnsFeasible(solver, q)
  }

  /** A sound solver fails on any system that holds both branch rows of the
      same fractional value. */
  lemma ClashingRowsAreInfeasible(solver: Solver, p: LPProblem, E: seq<Constraint>, bv: BranchVar)
    requires SoundSolver(solver) && |p.A| == |p.b|
    requires 1 <= bv.k <= 3 && !IsIntegral(bv.value)
    requires LeftRow(bv) in E && RightRow(bv) in E
    ensures solver(WithExtras(p, E)).None?
  {
    var q := WithExtras(p, E);
    if solver(q).Some? {
      var x := SolutionOf(solver(q).value).values;
      assert ReturnsFeasible(solver, q);
      var i :| 0 <= i < |E| && E[i] == LeftRow(bv);
      var j :| 0 <= j < |E| && E[j] == RightRow(bv);
      assert q.A[|p.A| + i] == E[i].coeffs && q.b[|p.b| + i] == E[i].bound;
      assert q.A[|p.A| + j] == E[j].coeffs && q.b[|p.b| + j] == E[j].bound;
      assert Holds(LeftRow(bv), x) && Holds(RightRow(bv), x);
      BranchRowsSplit(bv, x);
      assert false;
    }
  }

  /** A call whose list already holds both rows of one split finds nothing:
      both of its solves fail. */
  lemma ClashingListFindsNothing(solver: Solver, p: LPProblem, t: SolvedTableau, E: seq<Constraint>, depth: nat, bv: BranchVar)
    requires SoundSolver(solver) && |p.A| == |p.b| && !IsIntegerSolution(t)
    requires 1 <= bv.k <= 3 && !IsIntegral(bv.value)
    requires LeftRow(bv) in E && RightRow(bv) in E
    ensures SearchFrom(solver, p, t, E, depth).found == []
  {
    if depth > 0 {
      var bv' := BranchVarSearch(t);
      ClashingRowsAreInfeasible(solver, p, E + [LeftRow(bv')], bv);
      ClashingRowsAreInfeasible(solver, p, E + [RightRow(bv')], bv);
    }
  }

  /** The right child of a split whose left row is still in the list it
      receives: when its own solve is fractional, it finds nothing. */
  lemma StaleRightChildFindsNothing(solver: Solver, p: LPProblem, E: seq<Constraint>, extras: seq<Constraint>, bv: BranchVar, depth: nat)
    requires SoundSolver(solver) && |p.A| == |p.b|
    requires 1 <= bv.k <= 3 && !IsIntegral(bv.value)
    requires |extras| > |E| + 1 && extras[|E|] == LeftRow(bv)
    requires var rt := solver(WithExtras(p, E + [RightRow(bv)]));
             rt.Some? && !IsIntegerSolution(rt.value)
    ensures FollowBranch(solver, p, E + [RightRow(bv)], extras[..|extras| - 1] + [RightRow(bv)], depth).found == []
  {
    var handedRight := extras[..|extras| - 1] + [RightRow(bv)];
    assert handedRight[|E|] == LeftRow(bv);
    assert handedRight[|handedRight| - 1] == RightRow(bv);
    var rt := solver(WithExtras(p, E + [RightRow(bv)])).value;
    assert FollowBranch(solver, p, E + [RightRow(bv)], handedRight, depth) == SearchFrom(solver, p, rt, handedRight, depth);
    ClashingListFindsNothing(solver, p, rt, handedRight, depth, bv);
  }

  /** After a left branch that recursed, the list handed to the right child
      still holds the left row x_k <= floor(v) next to the right row
      x_k >= ceil(v): with a sound solver, a fractional right branch then
      contributes no solution, and the search finds only what its left
      subtree found. */
  lemma RightSubtreeLostAfterLeftRecursion(solver: Solver, p: LPProblem, t: SolvedTableau, E: seq<Constraint>, depth: nat)
    requires SoundSolver(solver) && |p.A| == |p.b| && !IsIntegerSolution(t) && depth > 0
    requires var bv := BranchVarSearch(t);
             var lt := solver(WithExtras(p, E + [LeftRow(bv)]));
             var rt := solver(WithExtras(p, E + [RightRow(bv)]));
             lt.Some? && !IsIntegerSolution(lt.value) && rt.Some? && !IsIntegerSolution(rt.value)
    ensures var E1 := E + [LeftRow(BranchVarSearch(t))];
            SearchFrom(solver, p, t, E, depth).found == FollowBranch(solver, p, E1, E1, depth - 1).found
  {
    var bv := BranchVarSearch(t);
    var E1 := E + [LeftRow(bv)];
    var left := FollowBranch(solver, p, E1, E1, depth - 1);
    if left.aborted {
      SearchStep(solver, p, t, E, depth, left, left);
    } else {
      var lt := solver(WithExtras(p, E1)).value;
      assert left == SearchFrom(solver, p, lt, E1, depth - 1);
      assert E1 <= left.extras && |left.extras| > |E1|;
      assert left.extras[|E|] == LeftRow(bv);
      var right := FollowBranch(solver, p, E + [RightRow(bv)], left.extras[..|left.extras| - 1] + [RightRow(bv)], depth - 1);
      StaleRightChildFindsNothing(solver, p, E, left.extras, bv, depth - 1);
      assert right.found == [];
      SearchStep(solver, p, t, E, depth, left, right);
      assert left.found + right.found == left.found;
    }
  }

  // ---------------------------------------------------------------------
  // The solution pool and the selector
  // ---------------------------------------------------------------------

  /** s[i] has the largest objective and is the first entry that has it. */
  predicate IsFirstMax(s: seq<Solution>, i: int)
    requires 0 <= i < |s|
  {
    && (forall j :: 0 <= j < |s| ==> s[j].objective <= s[i].objective)
    && (forall j :: 0 <= j < i ==> s[j].objective < s[i].objective)
  }

  /** s[i] has the smallest objective and is the first entry that has it. */
  predicate IsFirstMin(s: seq<Solution>, i: int)
    requires 0 <= i < |s|
  {
    && (forall j :: 0 <= j < |s| ==> s[i].objective <= s[j].objective)
    && (forall j :: 0 <= j < i ==> s[i].objective < s[j].objective)
  }

  /** The extra-constraint list handed down the recursion (the two lists
      `extra_constraints_lhs` and `extra_constraints_rhs`, kept as one list
      of pairs). Calls share it by reference. */
  class ExtraConstraints {
    var rows: seq<Constraint>

    constructor (rows: seq<Constraint>)
      ensures this.rows == rows
    {
      this.rows := rows;
    }
  }

  class BranchAndBound {
    const problem: LPProblem
    const solver: Solver
    const simplexTable: SolvedTableau
    const extras: ExtraConstraints
    var solutions: seq<Solution>
    /** The search was cut off by the depth bound (in the source, an
        exception leaves the constructor). */
    var aborted: bool

    /** `__init__`: empty lists and pool; branch only when the root table is
        fractional. */
    constructor (problem: LPProblem, solver: Solver, simplexTable: SolvedTableau, depth: nat)
      ensures this.problem == problem && this.solver == solver && this.simplexTable == simplexTable
      ensures fresh(extras)
      ensures IsIntegerSolution(simplexTable) ==> solutions == [] && extras.rows == [] && !aborted
      ensures !IsIntegerSolution(simplexTable) ==>
                var r := SearchFrom(solver, problem, simplexTable, [], depth);
                solutions == r.found && extras.rows == r.extras && aborted == r.aborted
    {
      this.problem := problem;
      this.solver := solver;
      this.simplexTable := simplexTable;
      extras := new ExtraConstraints([]);
      solutions := [];
      aborted := false;
      new;
      if !IsIntegerSolution(simplexTable) {
        var cut, outcome := Branching(simplexTable, extras, depth);
        aborted := cut;
      }
    }

    /** `branching`, with at most `depth` nested calls. */
    method Branching(t: SolvedTableau, list: ExtraConstraints, depth: nat) returns (cut: bool, ghost r: Search)
      requires !IsIntegerSolution(t)
      modifies this`solutions, list
      ensures r == SearchFrom(solver, problem, t, old(list.rows), depth)
      ensures solutions == old(solutions) + r.found && list.rows == r.extras && cut == r.aborted
      decreases depth, 0
    {
      if depth == 0 {
        return true, Search([], list.rows, true);
      }
      ghost var entry := list.rows;
      var bv := BranchVarSearch(t);
      var lhs, rhs;
      ghost var L;
      cut, lhs, rhs, L := LeftBranch(bv, list, depth - 1);
      if cut {
        SearchStep(solver, problem, t, entry, depth, L, L);
        return cut, Search(L.found, L.extras, true);
      }
      ghost var R;
      cut, R := RightBranch(bv, list, entry, lhs, rhs, depth - 1);
      SearchStep(solver, problem, t, entry, depth, L, R);
      r := Search(L.found + R.found, L.extras, R.aborted);
      AppendAssoc(old(solutions), L.found, R.found);
    }

    /** The left branch x_k <= floor(v): the row is appended to the caller's
        own list, the original system is stacked over the whole list, and the
        system goes through one try block with that list. The system is
        handed back for the right branch. */
    method LeftBranch(bv: BranchVar, list: ExtraConstraints, depth: nat)
      returns (cut: bool, lhs: seq<seq<real>>, rhs: seq<real>, ghost r: Search)
      requires 1 <= bv.k <= 3
      modifies this`solutions, list
      ensures var E1 := old(list.rows) + [LeftRow(bv)];
              r == FollowBranch(solver, problem, E1, E1, depth)
              && LPProblem(problem.c, lhs, rhs, problem.direction) == WithExtras(problem, E1)
      ensures solutions == old(solutions) + r.found && list.rows == r.extras && cut == r.aborted
      decreases depth, 2
    {
      var left := LeftRow(bv);
      list.rows := list.rows + [left];
      lhs, rhs := BuildSystem(problem.A, problem.b, list.rows);
      cut, r := TryBranch(lhs, rhs, list.rows, list, depth);
    }

    /** The right branch x_k >= ceil(v): the system loses its last row, the
        list is rebound to a copy without its last row (the caller's list
        keeps it), the right row is appended to both, and the system goes
        through one try block with the copy. */
    method RightBranch(bv: BranchVar, list: ExtraConstraints, ghost entry: seq<Constraint>,
                       lhs: seq<seq<real>>, rhs: seq<real>, depth: nat)
      returns (cut: bool, ghost r: Search)
      requires 1 <= bv.k <= 3 && |list.rows| > 0
      requires LPProblem(problem.c, lhs, rhs, problem.direction) == WithExtras(problem, entry + [LeftRow(bv)])
      modifies this`solutions
      ensures var right := RightRow(bv);
              r == FollowBranch(solver, problem, entry + [right], list.rows[..|list.rows| - 1] + [right], depth)
      ensures solutions == old(solutions) + r.found && cut == r.aborted
      decreases depth, 2
    {
      var right := RightRow(bv);
      RightSystem(problem, entry, LeftRow(bv), right);
      var lhs', rhs' := lhs[..|lhs| - 1], rhs[..|rhs| - 1];
      var handedRight := new ExtraConstraints(list.rows[..|list.rows| - 1]);
      handedRight.rows := handedRight.rows + [right];
      lhs', rhs' := lhs' + [right.coeffs], rhs' + [right.bound];
      cut, r := TryBranch(lhs', rhs', entry + [right], handedRight, depth);
    }

    /** One try block of `branching`: solve the system (the original problem
        plus the rows `lp`), then recurse on a fractional table with `list`,
        or record an integral one; a solver failure records nothing. */
    method TryBranch(lhs: seq<seq<real>>, rhs: seq<real>, ghost lp: seq<Constraint>, list: ExtraConstraints, depth: nat)
      returns (cut: bool, ghost r: Search)
      requires LPProblem(problem.c, lhs, rhs, problem.direction) == WithExtras(problem, lp)
      modifies this`solutions, list
      ensures r == FollowBranch(solver, problem, lp, old(list.rows), depth)
      ensures solutions == old(solutions) + r.found && list.rows == r.extras && cut == r.aborted
      decreases depth, 1
    {
      cut := false;
      r := FollowBranch(solver, problem, lp, list.rows, depth);
      var table := solver(LPProblem(problem.c, lhs, rhs, problem.direction));
      match table {
        case None =>
        case Some(st) =>
          if !IsIntegerSolution(st) {
            ghost var inner;
            cut, inner := Branching(st, list, depth);
          } else {
            AddSolution(st);
          }
      }
    }

    /** `add_solution`: append (objective, [x1, x2, x3]) read off the table. */
    method AddSolution(t: SolvedTableau)
      modifies this`solutions
      ensures solutions == old(solutions) + [SolutionOf(t)]
    {
      var rowsNum := |t.rows|;
      var f := t.rows[rowsNum - 1].value;
      var varsValues := new real[3](_ => 0.0);
      for i := 0 to rowsNum - 1
        modifies varsValues
        invariant varsValues[..] == [DecisionValue(t.rows, 1, i), DecisionValue(t.rows, 2, i), DecisionValue(t.rows, 3, i)]
      {
        if IsDecisionLabel(t.rows[i].name) {
          varsValues[LabelIndex(t.rows[i].name) - 1] := t.rows[i].value;
        }
      }
      assert Solution(f, varsValues[..]) == SolutionOf(t);
      solutions := solutions + [Solution(f, varsValues[..])];
    }

    /** `find_best_solution`: the first entry with the largest objective for
        "max", the first with the smallest for any other direction; None on
        an empty pool. */
    method FindBestSolution() returns (best: Option<Solution>)
      ensures best.None? <==> solutions == []
      ensures best.Some? ==> exists i :: 0 <= i < |solutions| && solutions[i] == best.value
                                         && (if problem.direction == "max" then IsFirstMax(solutions, i)
                                             else IsFirstMin(solutions, i))
    {
      best := None;
      ghost var bi := 0;
      if problem.direction == "max" {
        for n := 0 to |solutions|
          invariant best.None? <==> n == 0
          invariant best.Some? ==> bi < n && solutions[bi] == best.value
          invariant best.Some? ==> forall j :: 0 <= j < n ==> solutions[j].objective <= best.value.objective
          invariant best.Some? ==> forall j :: 0 <= j < bi ==> solutions[j].objective < best.value.objective
        {
          if best.None? || best.value.objective < solutions[n].objective {
            best, bi := Some(solutions[n]), n;
          }
        }
        if best.Some? {
          assert IsFirstMax(solutions, bi);
        }
      } else {
        for n := 0 to |solutions|
          invariant best.None? <==> n == 0
          invariant best.Some? ==> bi < n && solutions[bi] == best.value
          invariant best.Some? ==> forall j :: 0 <= j < n ==> best.value.objective <= solutions[j].objective
          invariant best.Some? ==> forall j :: 0 <= j < bi ==> best.value.objective < solutions[j].objective
        {
          if best.None? || best.value.objective > solutions[n].objective {
            best, bi := Some(solutions[n]), n;
          }
        }
        if best.Some? {
          assert IsFirstMin(solutions, bi);
        }
      }
    }
  }
}
