/** The boundary between the branch-and-bound search and the LP relaxation
    solver it calls. The solver itself (tableau construction, the reference
    and optimal solutions of the simplex method) is not part of this model:
    it is reduced to a function from an LP description to a solved tableau
    or a failure. */
module Simplex {
  import opened Wrappers

  /** One row of a solved simplex table: the label from the table's left
      column and the value in column 0 (the free-term column). */
  datatype Row = Row(name: string, value: real)

  /** A simplex table as the search reads it: its rows in order, the last
      one being the objective-function row. */
  datatype Tableau = Tableau(rows: seq<Row>)

  /** Labels that name an original decision variable. */
  predicate IsDecisionLabel(l: string)
  {
    l == "x1" || l == "x2" || l == "x3"
  }

  /** What the search assumes of every table the solver hands back: it has
      the objective row, and that row is not labelled as a decision variable. */
  predicate WellFormed(t: Tableau)
  {
    |t.rows| >= 1 && !IsDecisionLabel(t.rows[|t.rows| - 1].name)
  }

  type SolvedTableau = t: Tableau | WellFormed(t) witness Tableau([Row("F", 0.0)])

  /** One LP relaxation: objective coefficients c, constraint matrix A,
      right-hand side b (constraints A x <= b) and the direction "max" or "min". */
  datatype LPProblem = LPProblem(c: seq<real>, A: seq<seq<real>>, b: seq<real>, direction: string)

  /** The solver: a solved table, or None where the solver raises
      SimplexException (no reference solution, unbounded objective). */
  type Solver = LPProblem -> Option<SolvedTableau>

  /** The scalar product of a constraint row with a point of three coordinates. */
  function Dot3(a: seq<real>, x: seq<real>): real
    requires |a| == 3 && |x| == 3
  {
    a[0] * x[0] + a[1] * x[1] + a[2] * x[2]
  }

  /** The point x satisfies the constraint row a . x <= bound. */
  predicate Satisfies(a: seq<real>, bound: real, x: seq<real>)
    requires |x| == 3
  {
    |a| == 3 && Dot3(a, x) <= bound
  }

  /** The point x satisfies every constraint of q. */
  predicate Feasible(q: LPProblem, x: seq<real>)
  {
    |x| == 3 && forall i :: 0 <= i < |q.A| && i < |q.b| ==> Satisfies(q.A[i], q.b[i], x)
  }
}
