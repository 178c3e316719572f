# Branch and bound for small integer linear programs, in Dafny

This project models a solver for integer linear programs in three decision
variables x1, x2, x3: maximise or minimise c·x subject to A x <= b, with x
whole and non-negative. The solver has two parts.

- **Branch and bound** (`branch_and_bound.py`). It starts from the solved
  LP relaxation, a simplex table. While the table holds a fractional value v
  for some x_k, it branches into x_k <= floor(v) (left) and x_k >= ceil(v)
  (right). Each branch re-solves the original system plus a list of extra
  rows. The branch records integral tables in a solution pool, recurses on
  fractional ones, and skips branches the solver rejects. A selector picks
  the first entry of the pool with the best objective value.
- **Brute force** (`brute_force_method.py`). It lists every point of the box
  {0..M}^3 that satisfies A x <= b, where M is the largest of 0 and the
  entries of b. It then returns the index and the value of the first listed
  point with the largest objective value.

Files:

- `wrappers.dfy`: `Option` and `Result`.
- `simplex.dfy`: the interface of the LP solver. A solved table is a list of
  labelled rows with the objective row last. A solver is a function from an
  LP problem to an optional solved table; no table means the solver raised
  its exception. `Feasible` says what it means for a point to satisfy a
  system.
- `branch_and_bound.dfy`: the table inspectors, the branching rows, and the
  whole recursion as functions (`SearchFrom`, `FollowBranch`). It holds the
  class `BranchAndBound`, whose methods carry out that recursion on a shared,
  mutable list of extra rows and append to the solution pool. Its properties
  are proved about the functions.
- `branch_and_bound_restored.dfy`: the recursion with the extra-row list
  restored after each branch. This is the evidently intended behaviour (see
  Findings).
- `brute_force_method.dfy`: the brute-force class with its enumeration and
  its argmax, proved sound, complete, ordered and maximal.
- `cross_check.dfy`: every point the branch-and-bound search records, given
  a solver that only returns feasible points, satisfies the brute-force
  constraints. So the brute force lists it whenever it lies in the box.

Points where a reader might expect branch and bound to behave otherwise, and
what the code does (the model follows the code):

- The right branch has an early `return` after recording an integral table
  (`branch_and_bound.py:133-135`), but it cuts nothing short. The `return` is
  the last statement of the call, and the table it tests is the one line 129
  tested. So the right branch recurses on a fractional table and records an
  integral one, exactly like the left branch.
- The list of extra rows is not restored after the left branch.
  `extra_constraints_lhs[:-1]` (lines 104-105) rebinds a local name to a
  copy. The caller's list keeps every row that the left subtree appended
  (see Findings).
- When the root table is already integral, no branching happens and the
  pool stays empty (lines 26-27).
- On an empty pool the selector returns `None` (lines 145-150). It raises no
  error of its own; the caller sees `None`.

## Model

| member | source | states |
|---|---|---|
| BranchAndBound.IntegralFrom | branch_and_bound.py:182-186 | the scan from row i returns true exactly when no row from i on is an x1..x3 row with a non-whole value |
| BranchAndBound.IntegerSolutionMeans | branch_and_bound.py:175-186 | `is_integer_solution` holds exactly when every row labelled x1, x2 or x3 holds a whole number |
| BranchAndBound.FirstFractionalRow | branch_and_bound.py:196-198 | the index found is the first fractional decision row in the range; none is found only when the range has no such row |
| BranchAndBound.BranchVarSearch | branch_and_bound.py:189-198 | on a non-integral table it returns a variable number 1..3 and a non-whole value |
| BranchAndBound.BranchVarIsFirstFractional | branch_and_bound.py:196-198 | the returned (k, v) is the row labelled xk with value v that is the first fractional decision row, above the objective row |
| BranchAndBound.BranchRowsSplit | branch_and_bound.py:70-74 | the rows x_k <= floor(v) and -x_k <= -ceil(v) never both hold, one of them holds for every whole x_k, and neither holds at x_k = v |
| BranchAndBound.DecisionValueIsLastOccurrence | branch_and_bound.py:166-170 | slot k-1 of `vars_values` ends up with the value of the last row labelled xk, or 0 when no row has that label |
| BranchAndBound.IntegralTableGivesIntegralPoint | branch_and_bound.py:159-172 | the solution read off an integral table is three whole numbers |
| BranchAndBound.BuildSystem | branch_and_bound.py:76-80 | the loop stacks the extra rows, in order, under A and the extra bounds under b |
| BranchAndBound.RightSystem | branch_and_bound.py:102-103 | deleting the last row of the left system and appending the right row gives the original system plus the entry list plus the right row |
| BranchAndBound.FollowBranch | branch_and_bound.py:83-100 | one branch never shortens the caller's list |
| BranchAndBound.SearchFrom | branch_and_bound.py:49-139 | a call never shortens the caller's list, and a completed call leaves it longer |
| BranchAndBound.SearchFindsOnlyLeaves | branch_and_bound.py:92-96 | every pool entry is the solution of an integral table the solver returned for the original system plus some extra rows |
| BranchAndBound.LeafIsIntegralPoint | branch_and_bound.py:133-134 | every such leaf entry is a point of three whole numbers |
| BranchAndBound.LeftFailureStillExploresRight | branch_and_bound.py:98-100 | a solver failure on the left branch records nothing and the right branch is still explored with the entry list plus the right row |
| BranchAndBound.CallerListKeepsLeftRow | branch_and_bound.py:104-105 | after a call the caller's list still holds this call's left row right after its entry rows |
| BranchAndBound.ClashingRowsAreInfeasible | branch_and_bound.py:110-118 | with a solver that returns only feasible points, a system holding both rows of one split has no solution |
| BranchAndBound.ClashingListFindsNothing | branch_and_bound.py:121-139 | a call whose list holds both rows of one split records nothing |
| BranchAndBound.StaleRightChildFindsNothing | branch_and_bound.py:104-114 | the right child of a split, given a list in which the left row survived, records nothing when its own table is fractional |
| BranchAndBound.RightSubtreeLostAfterLeftRecursion | branch_and_bound.py:94-131 | when both branches of a call are fractional, everything the call records comes from its left subtree |
| BranchAndBound.BranchAndBound.constructor | branch_and_bound.py:22-27 | empty lists and pool; branching only on a fractional root; the pool, the list and the abort flag are those of `SearchFrom` |
| BranchAndBound.BranchAndBound.Branching | branch_and_bound.py:49-139 | the pool grows by exactly what `SearchFrom` finds, and the shared list ends as `SearchFrom` says |
| BranchAndBound.BranchAndBound.LeftBranch | branch_and_bound.py:67-100 | the left row is appended to the caller's own list, the solve sees the original system plus that list, and the outcome is `FollowBranch` |
| BranchAndBound.BranchAndBound.RightBranch | branch_and_bound.py:102-139 | the solve sees the entry list plus the right row, the recursion gets a copy of the caller's list minus its last row plus the right row, and the caller's list is untouched |
| BranchAndBound.BranchAndBound.TryBranch | branch_and_bound.py:83-100 | one try block: the pool and the list change exactly as `FollowBranch` says |
| BranchAndBound.BranchAndBound.AddSolution | branch_and_bound.py:159-172 | the pool gains one entry: the objective row's value and the last value of each of x1, x2, x3, or 0 |
| BranchAndBound.BranchAndBound.FindBestSolution | branch_and_bound.py:141-157 | none exactly on an empty pool; otherwise the first entry with the largest objective for "max" and the first with the smallest otherwise |
| BranchAndBoundRestored.RestoredSearch | branch_and_bound.py:49-139 | with the row deleted in place after each branch, a completed call hands its caller's list back unchanged |
| BranchAndBoundRestored.RestoredRightChildSeesEntryList | branch_and_bound.py:102-131 | in the restored search the right child gets exactly the entry list plus the right row, and the call records what both subtrees record |
| BranchAndBoundRestored.FeasibleWithExtraRow | branch_and_bound.py:76-80 | adding a row keeps exactly the points of the system that also satisfy the row |
| BranchAndBoundRestored.SplitKeepsIntegralPoints | branch_and_bound.py:67-118 | a feasible point with a whole x_k is feasible for exactly one of the two children |
| BruteForce.SatisfiesFrom | brute_force_method.py:54-65 | the scan returns true exactly when every row i satisfies A[i][0]x1 + A[i][1]x2 + A[i][2]x3 <= b[i] |
| BruteForce.EnumerationBound | brute_force_method.py:72-78 | the bound is non-negative, at least every b[i], and either 0 or one of the b[i] |
| BruteForce.ObjectiveValueIsDot | brute_force_method.py:96-100 | the value built by the inner loop is c·x, with missing coefficients read as 0 |
| BruteForce.OriginSatisfiesNonNegativeBounds | brute_force_method.py:59-65 | with no negative b[i] the origin is feasible and in the box, so the list is never empty |
| BruteForce.BruteForceMethod.ListOfSolutions | brute_force_method.py:67-86 | exactly the feasible points of {0..M}^3 are listed, in strictly increasing lexicographic order |
| BruteForce.BruteForceMethod.SearchOptimalSolution | brute_force_method.py:88-108 | the index of the first listed point with the largest objective value, and that value |
| BruteForce.BruteForceMethod.Load | brute_force_method.py:27-31 | more equations than objective coefficients is refused, on any input; an empty list is reported; otherwise the listed points are exactly the feasible points of the box, in increasing lexicographic order, and the optimum is the first best |
| CrossCheck.LeafSatisfiesOracleRows | brute_force_method.py:54-65 | a leaf of a search with a feasibility-respecting solver satisfies the brute-force constraint check |
| CrossCheck.SearchPoolInBoxIsListed | brute_force_method.py:80-84 | every point the branch-and-bound search records satisfies the brute-force constraints, and it is in any list holding every feasible point of the box (as `ListOfSolutions` returns) whenever it lies in that box |

## Left out

- The simplex solver (`simplex_b_b.py`) is not part of this model. It is a parameter `Solver` from an LP problem to an optional solved table, where no table stands for `SimplexException`. Its tables are only assumed to have at least one row, with the objective row last and not labelled x1..x3. The properties in the cross-check and the lost-subtree lemmas also assume a solver that returns only feasible points.
- `main.py`, the JSON input files, `print` and `__str__` are left out: they are input and output only.
- Floating point: every value is an exact real. `is_integer()` is `r == floor(r)`, so rounding noise in the solver's tables is not modelled.
- BranchAndBound.BranchAndBound.Branching: the depth of the recursion is bounded by a `depth` parameter. A call beyond the bound ends the whole search (the `aborted` flag), which stands for Python's RecursionError. The unbounded recursion is not modelled.
- The two parallel lists `extra_constraints_lhs` and `extra_constraints_rhs` are one list of `Constraint` pairs. The source always extends and truncates them together.
- `branching` is split into `Branching`, `LeftBranch`, `RightBranch` and `TryBranch`: one try block each. The statements and their order are the source's.
- The numpy shape check at `brute_force_method.py:24` compares a length with itself and never fires, so it is not modelled.
- BruteForce.BruteForceMethod.Load: when there are no more equations than objective coefficients, it requires |A| == |b|, at least three entries per row of A, and at most three objective coefficients. With such input the source goes on to index past the end of A, b, a row of A or a listed point, and fails with an IndexError, which is not modelled. Input with more equations than coefficients needs none of this: it is refused first, as at line 28. The right-hand sides are whole numbers because `range(maximum + 1)` needs an integer.
- BruteForce.BruteForceMethod.SearchOptimalSolution: requires a non-empty list. On an empty list the source raises IndexError at line 108; `Load` reports this case as `NoIntegerSolution` instead.
- `direction` is ignored by the brute force, as in the source: it always maximises.
- BranchAndBound.FollowBranch and BranchAndBound.SearchFrom: their own ensures only state that the list grows. What they compute is pinned down by the lemmas about them and by the methods whose ensures equal them.

## Findings

| source | as written | input that shows it | evidently intended | confidence | as-written member | corrected member |
|---|---|---|---|---|---|---|
| branch_and_bound.py:104-105 | `extra_constraints_lhs = extra_constraints_lhs[:-1]` rebinds a local copy. The caller's list keeps the left row x_k <= floor(v) and every row the left subtree appended. The right child's recursion gets that stale list plus x_k >= ceil(v), so every solve below it fails and its subtree records nothing. | max x1 + 10 x2 subject to -2 x1 + 2 x2 <= 1 and 2 x1 + 2 x2 <= 3. The root relaxation (0.5, 1) branches on x1. The left branch x1 <= 0 gives (0, 0.5) with F = 5, which is fractional, so it recurses on x2 with the list [x1 <= 0, x2 <= 0]. Its left child records (0, 0) with F = 0, and its right child (x1 <= 0, x2 >= 1) is infeasible. The caller's list now holds x1 <= 0 and x2 <= 0. Back at the root, the right branch solves x1 >= 1 alone and gets (1, 0.5) with F = 6. It recurses with the copy [x1 <= 0, x1 >= 1], so every solve below it fails. (Had the left branch been integral at once, the right child would have received the correct list and the bug would not show.) The pool is only (0; 0, 0, 0), while the optimum is (1, 0, 0) with F = 1. | delete the appended row in place after each branch, so that the right child sees the entry list plus the right row | not executed; hand-computed | BranchAndBound.RightSubtreeLostAfterLeftRecursion | BranchAndBoundRestored.RestoredSearch |
