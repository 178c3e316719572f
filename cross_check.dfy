/** The brute-force oracle as a check on the branch-and-bound pool: with a
    solver that only returns feasible points, every point the search records
    satisfies the original constraints, so when it lies in the brute-force
    box the oracle lists it too. */
module CrossCheck {
  import opened Wrappers
  import opened Simplex
  import opened BranchAndBound
  import opened BruteForce

  /** The right-hand sides of the oracle, read as the solver's reals. */
  function RealBounds(b: seq<int>): (r: seq<real>)
    ensures |r| == |b| && forall i :: 0 <= i < |b| ==> r[i] == b[i] as real
  {
    seq(|b|, i requires 0 <= i < |b| => b[i] as real)
  }

  /** The whole point a recorded solution stands for. */
  function PointOf(s: Solution): Point
    requires |s.values| == 3
  {
    Point(s.values[0].Floor, s.values[1].Floor, s.values[2].Floor)
  }

  /** A leaf of the search satisfies the original rows of the problem, read
      as the oracle reads them. */
  lemma LeafSatisfiesOracleRows(solver: Solver, p: LPProblem, A: seq<seq<real>>, b: seq<int>, s: Solution)
    requires SoundSolver(solver) && IsLeaf(solver, p, s)
    requires WellShaped(A, b) && forall i :: 0 <= i < |A| ==> |A[i]| == 3
    requires p.A == A && p.b == RealBounds(b)
    ensures |s.values| == 3 && SatisfiesConstraints(A, b, PointOf(s))
  {
    LeafIsIntegralPoint(solver, p, s);
    var E: seq<Constraint> :| solver(WithExtras(p, E)).Some? && IsIntegerSolution(solver(WithExtras(p, E)).value)
                             && SolutionOf(solver(WithExtras(p, E)).value) == s;
    var q := WithExtras(p, E);
    assert ReturnsFeasible(solver, q);
    assert Feasible(q, s.values);
    var x := PointOf(s);
    assert x.x1 as real == s.values[0] && x.x2 as real == s.values[1] && x.x3 as real == s.values[2];
    forall j | 0 <= j < |b|
      ensures RowHolds(A[j], b[j], x)
    {
      assert q.A[j] == A[j] && q.b[j] == b[j] as real;
      assert Satisfies(q.A[j], q.b[j], s.values);
    }
  }

  /** Every solution the search records satisfies the oracle's constraints;
      so when it also lies in the box the oracle enumerates, it is in any list
      that holds every feasible point of the box, as `ListOfSolutions`
      promises of its result. */
  lemma SearchPoolInBoxIsListed(solver: Solver, p: LPProblem, t: SolvedTableau, depth: nat,
                                A: seq<seq<real>>, b: seq<int>, list: seq<Point>, s: Solution)
    requires SoundSolver(solver) && !IsIntegerSolution(t)
    requires WellShaped(A, b) && forall i :: 0 <= i < |A| ==> |A[i]| == 3
    requires p.A == A && p.b == RealBounds(b)
    requires forall x :: InBox(x, EnumerationBound(b)) && SatisfiesConstraints(A, b, x) ==> x in list
    requires s in SearchFrom(solver, p, t, [], depth).found
    ensures |s.values| == 3 && SatisfiesConstraints(A, b, PointOf(s))
    ensures InBox(PointOf(s), EnumerationBound(b)) ==> PointOf(s) in list
  {
    SearchFindsOnlyLeaves(solver, p, t, [], depth);
    LeafSatisfiesOracleRows(solver, p, A, b, s);
  }
}
