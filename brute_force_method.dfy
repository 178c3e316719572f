/** The brute-force oracle for the same integer programs: every whole point
    of the box {0..M}^3, with M the largest of 0 and the right-hand sides,
    is tested against A x <= b, and the listed points are searched for the
    first largest objective value. */
module BruteForce {
  import opened Wrappers

  /** A candidate point (x1, x2, x3) of whole numbers. */
  datatype Point = Point(x1: int, x2: int, x3: int)

  /** The input shape the source indexes without a guard: one row of A per
      right-hand side, and at least three coefficients in every row. */
  predicate WellShaped(A: seq<seq<real>>, b: seq<int>)
  {
    |A| == |b| && forall i :: 0 <= i < |A| ==> |A[i]| >= 3
  }

  /** A[i][0]*x1 + A[i][1]*x2 + A[i][2]*x3 for one row a of A. */
  function RowValue(a: seq<real>, x: Point): real
    requires |a| >= 3
  {
    a[0] * x.x1 as real + a[1] * x.x2 as real + a[2] * x.x3 as real
  }

  /** The point satisfies the row: its left-hand side does not exceed the bound. */
  predicate RowHolds(a: seq<real>, bound: int, x: Point)
    requires |a| >= 3
  {
    RowValue(a, x) <= bound as real
  }

  /** The scan of `is_satisfies_constraints` from row i on, returning false
      at the first row whose left-hand side exceeds its bound. */
  function SatisfiesFrom(A: seq<seq<real>>, b: seq<int>, x: Point, i: nat): (ok: bool)
    requires WellShaped(A, b) && i <= |b|
    ensures ok <==> forall j :: i <= j < |b| ==> RowHolds(A[j], b[j], x)
    decreases |b| - i
  {
    if i == |b| then true
    else if !RowHolds(A[i], b[i], x) then false
    else SatisfiesFrom(A, b, x, i + 1)
  }

  /** `is_satisfies_constraints`. */
  predicate SatisfiesConstraints(A: seq<seq<real>>, b: seq<int>, x: Point)
    requires WellShaped(A, b)
  {
    SatisfiesFrom(A, b, x, 0)
  }

  /** The value `maximum` holds after the first loop of `list_of_solutions`
      has looked at the right-hand sides b: it starts at 0 and takes any
      larger entry. */
  function EnumerationBound(b: seq<int>): (m: int)
    ensures m >= 0
    ensures forall i :: 0 <= i < |b| ==> b[i] <= m
    ensures m == 0 || exists i :: 0 <= i < |b| && b[i] == m
  {
    if |b| == 0 then 0
    else
      var m := EnumerationBound(b[..|b| - 1]);
      if b[|b| - 1] > m then b[|b| - 1] else m
  }

  /** x lies in the box {0..m}^3. */
  predicate InBox(x: Point, m: int)
  {
    0 <= x.x1 <= m && 0 <= x.x2 <= m && 0 <= x.x3 <= m
  }

  /** Lexicographic order on (x1, x2, x3). */
  predicate LexLess(x: Point, y: Point)
  {
    || x.x1 < y.x1
    || (x.x1 == y.x1 && x.x2 < y.x2)
    || (x.x1 == y.x1 && x.x2 == y.x2 && x.x3 < y.x3)
  }

  /** Coordinate j (0, 1 or 2) of a point, as the source indexes it. */
  function Coordinate(x: Point, j: int): int
    requires 0 <= j < 3
  {
    if j == 0 then x.x1 else if j == 1 then x.x2 else x.x3
  }

  /** The sum c[0]*x[0] + ... + c[n-1]*x[n-1] the inner loop of
      `search_optimal_solution` has built after n steps. */
  function PartialObjective(c: seq<real>, x: Point, n: nat): real
    requires n <= |c| <= 3
  {
    if n == 0 then 0.0 else PartialObjective(c, x, n - 1) + c[n - 1] * Coordinate(x, n - 1) as real
  }

  /** The objective value of x: one term per coefficient of c. */
  function ObjectiveValue(c: seq<real>, x: Point): real
    requires |c| <= 3
  {
    PartialObjective(c, x, |c|)
  }

  /** Coefficient j of c, with the coefficients c does not have read as 0. */
  function Coefficient(c: seq<real>, j: int): real
  {
    if 0 <= j < |c| then c[j] else 0.0
  }

  /** The objective value is the dot product of x with c, where an objective
      with fewer than three coefficients leaves the remaining variables out. */
  lemma {:induction false} ObjectiveValueIsDot(c: seq<real>, x: Point)
    requires |c| <= 3
    ensures ObjectiveValue(c, x)
            == Coefficient(c, 0) * x.x1 as real + Coefficient(c, 1) * x.x2 as real + Coefficient(c, 2) * x.x3 as real
  {
    var v0, v1, v2 := x.x1 as real, x.x2 as real, x.x3 as real;
    if |c| == 0 {
    } else if |c| == 1 {
      assert PartialObjective(c, x, 1) == c[0] * v0;
    } else if |c| == 2 {
      assert PartialObjective(c, x, 1) == c[0] * v0;
      assert PartialObjective(c, x, 2) == c[0] * v0 + c[1] * v1;
    } else {
      assert PartialObjective(c, x, 1) == c[0] * v0;
      assert PartialObjective(c, x, 2) == c[0] * v0 + c[1] * v1;
      assert PartialObjective(c, x, 3) == c[0] * v0 + c[1] * v1 + c[2] * v2;
    }
  }

  /** With no negative right-hand side the origin satisfies every row, so
      the list of solutions is never empty. */
  lemma OriginSatisfiesNonNegativeBounds(A: seq<seq<real>>, b: seq<int>)
    requires WellShaped(A, b)
    requires forall i :: 0 <= i < |b| ==> b[i] >= 0
    ensures SatisfiesConstraints(A, b, Point(0, 0, 0)) && InBox(Point(0, 0, 0), EnumerationBound(b))
  {
    assert forall j :: 0 <= j < |b| ==> RowHolds(A[j], b[j], Point(0, 0, 0));
  }

  /** Every listed point lies in the box and satisfies A x <= b. */
  predicate ListedSound(list: seq<Point>, A: seq<seq<real>>, b: seq<int>, m: int)
    requires WellShaped(A, b)
  {
    forall k :: 0 <= k < |list| ==> InBox(list[k], m) && SatisfiesConstraints(A, b, list[k])
  }

  /** The list is strictly increasing in lexicographic order. */
  predicate StrictlyIncreasing(list: seq<Point>)
  {
    forall i, j :: 0 <= i < j < |list| ==> LexLess(list[i], list[j])
  }

  /** Every listed point comes before the cursor c of the enumeration. */
  predicate ListedBelow(list: seq<Point>, c: Point)
  {
    forall k :: 0 <= k < |list| ==> LexLess(list[k], c)
  }

  /** Every satisfying point of the box before the cursor c is listed. */
  ghost predicate CompleteBelow(list: seq<Point>, A: seq<seq<real>>, b: seq<int>, m: int, c: Point)
    requires WellShaped(A, b)
  {
    forall x :: InBox(x, m) && SatisfiesConstraints(A, b, x) && LexLess(x, c) ==> x in list
  }

  /** Two cursors that no point of the box tells apart describe the same
      progress of the enumeration (moving from (a, b, m+1) to (a, b+1, 0),
      or from (a, m+1, 0) to (a+1, 0, 0)). */
  lemma CarryCursor(list: seq<Point>, A: seq<seq<real>>, b: seq<int>, m: int, c: Point, d: Point)
    requires WellShaped(A, b) && ListedSound(list, A, b, m)
    requires ListedBelow(list, c) && CompleteBelow(list, A, b, m, c)
    requires forall x :: InBox(x, m) ==> (LexLess(x, c) <==> LexLess(x, d))
    ensures ListedBelow(list, d) && CompleteBelow(list, A, b, m, d)
  {
    forall k | 0 <= k < |list|
      ensures LexLess(list[k], d)
    {
      assert InBox(list[k], m);
    }
  }

  /** Listing a satisfying candidate c keeps the list sound, increasing and
      complete up to the point right after c. */
  lemma AcceptCandidate(list: seq<Point>, A: seq<seq<real>>, b: seq<int>, m: int, c: Point)
    requires WellShaped(A, b) && InBox(c, m) && SatisfiesConstraints(A, b, c)
    requires ListedSound(list, A, b, m) && StrictlyIncreasing(list)
    requires ListedBelow(list, c) && CompleteBelow(list, A, b, m, c)
    ensures var next := Point(c.x1, c.x2, c.x3 + 1);
            ListedSound(list + [c], A, b, m) && StrictlyIncreasing(list + [c])
            && ListedBelow(list + [c], next) && CompleteBelow(list + [c], A, b, m, next)
  {
    var list' := list + [c];
    forall i, j | 0 <= i < j < |list'|
      ensures LexLess(list'[i], list'[j])
    {
      if j == |list| {
        assert list'[i] == list[i];
      }
    }
  }

  /** Passing over a candidate c that fails a row keeps the list complete up
      to the point right after c. */
  lemma SkipCandidate(list: seq<Point>, A: seq<seq<real>>, b: seq<int>, m: int, c: Point)
    requires WellShaped(A, b) && !SatisfiesConstraints(A, b, c)
    requires ListedBelow(list, c) && CompleteBelow(list, A, b, m, c)
    ensures var next := Point(c.x1, c.x2, c.x3 + 1);
            ListedBelow(list, next) && CompleteBelow(list, A, b, m, next)
  {
  }

  /** Why a problem is refused before any point is listed, or why no optimum
      can be reported. */
  datatype LoadError =
    | TooManyEquations     // more right-hand sides than objective coefficients
    | NoIntegerSolution    // the box holds no feasible point; the source indexes an empty list

  class BruteForceMethod {
    const objective: seq<real>
    const lhs: seq<seq<real>>
    const rhs: seq<int>
    const direction: string
    var allSolutions: seq<Point>
    var maxInd: nat
    var maxValue: real

    /** The problem as read from the input file, nothing computed yet. */
    constructor (c: seq<real>, A: seq<seq<real>>, b: seq<int>, direction: string)
      ensures objective == c && lhs == A && rhs == b && this.direction == direction
      ensures allSolutions == [] && maxInd == 0 && maxValue == 0.0
    {
      objective, lhs, rhs, this.direction := c, A, b, direction;
      allSolutions, maxInd, maxValue := [], 0, 0.0;
    }

    /** `__init__` after reading the file: refuse more equations than
        variables, then list the feasible points of the box and pick the best. */
    static method Load(c: seq<real>, A: seq<seq<real>>, b: seq<int>, direction: string)
      returns (r: Result<BruteForceMethod, LoadError>)
      requires |b| <= |c| ==> WellShaped(A, b) && |c| <= 3
      ensures r.Failure? && r.error == TooManyEquations <==> |b| > |c|
      ensures r.Failure? && r.error == NoIntegerSolution <==>
                |b| <= |c| && forall x :: InBox(x, EnumerationBound(b)) ==> !SatisfiesConstraints(A, b, x)
      ensures r.Success? ==>
                var bf := r.value;
                && fresh(bf)
                && bf.objective == c && bf.lhs == A && bf.rhs == b && bf.direction == direction
                && (forall x :: x in bf.allSolutions <==> InBox(x, EnumerationBound(b)) && SatisfiesConstraints(A, b, x))
                && StrictlyIncreasing(bf.allSolutions)
                && bf.maxInd < |bf.allSolutions|
                && bf.maxValue == ObjectiveValue(c, bf.allSolutions[bf.maxInd])
                && (forall k :: 0 <= k < |bf.allSolutions| ==> ObjectiveValue(c, bf.allSolutions[k]) <= bf.maxValue)
                && (forall k :: 0 <= k < bf.maxInd ==> ObjectiveValue(c, bf.allSolutions[k]) < bf.maxValue)
    {
      if |b| > |c| {
        return Failure(TooManyEquations);
      }
      var bf := new BruteForceMethod(c, A, b, direction);
      var solutions := bf.ListOfSolutions();
      bf.allSolutions := solutions;
      if |solutions| == 0 {
        return Failure(NoIntegerSolution);
      }
      var ind, value := bf.SearchOptimalSolution();
      bf.maxInd, bf.maxValue := ind, value;
      return Success(bf);
    }

    /** `list_of_solutions`: the feasible points of {0..M}^3, in increasing
        lexicographic order, where M is the largest of 0 and the entries of b. */
    method ListOfSolutions() returns (list: seq<Point>)
      requires WellShaped(lhs, rhs)
      ensures var m := EnumerationBound(rhs);
              forall i :: 0 <= i < |list| ==> InBox(list[i], m) && SatisfiesConstraints(lhs, rhs, list[i])
      ensures forall x :: InBox(x, EnumerationBound(rhs)) && SatisfiesConstraints(lhs, rhs, x) ==> x in list
      ensures forall i, j :: 0 <= i < j < |list| ==> LexLess(list[i], list[j])
    {
      var maximum := 0;
      for i := 0 to |lhs|
        invariant maximum == EnumerationBound(rhs[..i])
      {
        assert rhs[..i + 1][..i] == rhs[..i];
        if rhs[i] > maximum {
          maximum := rhs[i];
        }
      }
      assert rhs[..|lhs|] == rhs;

      list := [];
      for x1 := 0 to maximum + 1
        invariant ListedSound(list, lhs, rhs, maximum) && StrictlyIncreasing(list)
        invariant ListedBelow(list, Point(x1, 0, 0)) && CompleteBelow(list, lhs, rhs, maximum, Point(x1, 0, 0))
      {
        for x2 := 0 to maximum + 1
          invariant ListedSound(list, lhs, rhs, maximum) && StrictlyIncreasing(list)
          invariant ListedBelow(list, Point(x1, x2, 0)) && CompleteBelow(list, lhs, rhs, maximum, Point(x1, x2, 0))
        {
          for x3 := 0 to maximum + 1
            invariant ListedSound(list, lhs, rhs, maximum) && StrictlyIncreasing(list)
            invariant ListedBelow(list, Point(x1, x2, x3)) && CompleteBelow(list, lhs, rhs, maximum, Point(x1, x2, x3))
          {
            if SatisfiesConstraints(lhs, rhs, Point(x1, x2, x3)) {
              AcceptCandidate(list, lhs, rhs, maximum, Point(x1, x2, x3));
              list := list + [Point(x1, x2, x3)];
            } else {
              SkipCandidate(list, lhs, rhs, maximum, Point(x1, x2, x3));
            }
          }
          CarryCursor(list, lhs, rhs, maximum, Point(x1, x2, maximum + 1), Point(x1, x2 + 1, 0));
        }
        CarryCursor(list, lhs, rhs, maximum, Point(x1, maximum + 1, 0), Point(x1 + 1, 0, 0));
      }
      assert forall x :: InBox(x, maximum) ==> LexLess(x, Point(maximum + 1, 0, 0));
    }

    /** `search_optimal_solution`: the objective value of every listed point,
        then the index of the first largest one. It maximises whatever the
        direction says; an empty list makes the source index past the end. */
    method SearchOptimalSolution() returns (ind: nat, value: real)
      requires |allSolutions| > 0 && |objective| <= 3
      ensures ind < |allSolutions| && value == ObjectiveValue(objective, allSolutions[ind])
      ensures forall k :: 0 <= k < |allSolutions| ==> ObjectiveValue(objective, allSolutions[k]) <= value
      ensures forall k :: 0 <= k < ind ==> ObjectiveValue(objective, allSolutions[k]) < value
    {
      var values: seq<real> := [];
      for i := 0 to |allSolutions|
        invariant |values| == i
        invariant forall k :: 0 <= k < i ==> values[k] == ObjectiveValue(objective, allSolutions[k])
      {
        var f := 0.0;
        for j := 0 to |objective|
          invariant f == PartialObjective(objective, allSolutions[i], j)
        {
          f := f + objective[j] * Coordinate(allSolutions[i], j) as real;
        }
        values := values + [f];
      }

      ind := 0;
      for i := 0 to |values|
        invariant ind < |values| && ind <= i
        invariant forall k :: 0 <= k < i ==> values[k] <= values[ind]
        invariant forall k :: 0 <= k < ind ==> values[k] < values[ind]
      {
        if values[i] > values[ind] {
          ind := i;
        }
      }
      value := values[ind];
    }
  }
}
