// Dynamic time warping with backtrace.
module Dtw {

  // a cost, infinite outside the table
  datatype Cost = Fin(v: real) | Inf

  predicate Less(a: Cost, b: Cost) { a.Fin? && (b.Inf? || a.v < b.v) }

  function Plus(d: real, c: Cost): Cost { if c.Inf? then Inf else Fin(d + c.v) }

  type Matrix = seq<seq<real>>

  predicate Shape(x: Matrix, n: nat, m: nat) { |x| == n && forall i :: 0 <= i < n ==> |x[i]| == m }

  // ---- what the tables hold ----

  // 0: both indices step, 1: the first, 2: the second
  function Choice(c0: Cost, c1: Cost, c2: Cost): (t: int)
    ensures 0 <= t <= 2
  {
    if Less(c0, c1) && Less(c0, c2) then 0 else if Less(c1, c0) && Less(c1, c2) then 1 else 2
  }

  function Chosen(c0: Cost, c1: Cost, c2: Cost): Cost {
    match Choice(c0, c1, c2)
    case 0 => c0
    case 1 => c1
    case _ => c2
  }

  function CostAt(x: Matrix, n: nat, m: nat, i: nat, j: nat): Cost
    requires Shape(x, n, m) && i <= n && j <= m
    decreases i + j
  {
    if i == 0 && j == 0 then Fin(0.0)
    else if i == 0 || j == 0 then Inf
    else Plus(x[i - 1][j - 1],
              Chosen(CostAt(x, n, m, i - 1, j - 1), CostAt(x, n, m, i - 1, j), CostAt(x, n, m, i, j - 1)))
  }

  function TraceAt(x: Matrix, n: nat, m: nat, i: nat, j: nat): int
    requires Shape(x, n, m) && i <= n && j <= m
  {
    if i == 0 || j == 0 then -1
    else Choice(CostAt(x, n, m, i - 1, j - 1), CostAt(x, n, m, i - 1, j), CostAt(x, n, m, i, j - 1))
  }

  // the tables are finite inside, and the backtrace never enters their borders before the corner
  lemma {:induction false} Inside(x: Matrix, n: nat, m: nat, i: nat, j: nat)
    requires Shape(x, n, m) && 0 < i <= n && 0 < j <= m
    ensures CostAt(x, n, m, i, j).Fin?
    ensures var t := TraceAt(x, n, m, i, j);
            (t == 0 ==> (i == 1 && j == 1) || (i > 1 && j > 1)) && (t == 1 ==> i > 1) && (t == 2 ==> j > 1)
    decreases i + j
  {
    if i > 1 { Inside(x, n, m, i - 1, j); }
    if j > 1 { Inside(x, n, m, i, j - 1); }
    if i > 1 && j > 1 { Inside(x, n, m, i - 1, j - 1); }
  }

  // the cell that the backtrace goes to
  function Prev(x: Matrix, n: nat, m: nat, i: nat, j: nat): (c: (nat, nat))
    requires Shape(x, n, m) && 0 < i <= n && 0 < j <= m
    ensures c.0 <= i && c.1 <= j && c.0 + c.1 < i + j && (c.0 == 0 <==> c.1 == 0)
    ensures c.0 == 0 ==> i == 1 && j == 1
    ensures c.0 > 0 ==> StepTo((c.0 - 1, c.1 - 1), (i - 1, j - 1))
  {
    Inside(x, n, m, i, j);
    match TraceAt(x, n, m, i, j)
    case 0 => (i - 1, j - 1)
    case 1 => (i - 1, j)
    case _ => (i, j - 1)
  }

  lemma CostStep(x: Matrix, n: nat, m: nat, i: nat, j: nat)
    requires Shape(x, n, m) && 0 < i <= n && 0 < j <= m
    ensures var c := Prev(x, n, m, i, j);
            CostAt(x, n, m, i, j) == Plus(x[i - 1][j - 1], CostAt(x, n, m, c.0, c.1))
  {
  }

  // ---- paths ----

  type Path = seq<(int, int)>

  predicate StepTo(a: (int, int), b: (int, int)) {
    (b.0 == a.0 + 1 && b.1 == a.1 + 1) || (b.0 == a.0 + 1 && b.1 == a.1) || (b.0 == a.0 && b.1 == a.1 + 1)
  }

  // from (0, 0) to (i - 1, j - 1), each step advancing one or both indices by one
  predicate Monotone(p: Path, i: int, j: int) {
    && p != [] && p[0] == (0, 0) && p[|p| - 1] == (i - 1, j - 1)
    && forall k :: 0 < k < |p| ==> StepTo(p[k - 1], p[k])
  }

  predicate Within(p: Path, n: nat, m: nat) { forall k :: 0 <= k < |p| ==> 0 <= p[k].0 < n && 0 <= p[k].1 < m }

  function PathSum(x: Matrix, n: nat, m: nat, p: Path): real
    requires Shape(x, n, m) && Within(p, n, m)
  {
    if p == [] then 0.0 else PathSum(x, n, m, p[..|p| - 1]) + x[p[|p| - 1].0][p[|p| - 1].1]
  }

  lemma {:induction false} MonotoneWithin(p: Path, i: int, j: int)
    requires Monotone(p, i, j)
    ensures i > 0 && j > 0 && Within(p, i, j) && |p| <= i + j - 1
    decreases |p|
  {
    if |p| > 1 {
      var q := p[..|p| - 1];
      assert StepTo(p[|p| - 2], p[|p| - 1]);
      MonotoneWithin(q, q[|q| - 1].0 + 1, q[|q| - 1].1 + 1);
      forall k | 0 <= k < |p| ensures 0 <= p[k].0 < i && 0 <= p[k].1 < j {
        if k < |q| { assert p[k] == q[k]; }
      }
    }
  }

  // the cells that the backtrace visits on its way from (i, j), in order
  function Trail(x: Matrix, n: nat, m: nat, i: nat, j: nat): (p: Path)
    requires Shape(x, n, m) && i <= n && j <= m && (i == 0 <==> j == 0)
    decreases i + j
  {
    if i == 0 then []
    else
      var c := Prev(x, n, m, i, j);
      Trail(x, n, m, c.0, c.1) + [(i - 1, j - 1)]
  }

  lemma {:induction false} TrailIsMonotone(x: Matrix, n: nat, m: nat, i: nat, j: nat)
    requires Shape(x, n, m) && 0 < i <= n && 0 < j <= m
    ensures Monotone(Trail(x, n, m, i, j), i, j)
    decreases i + j
  {
    hide Prev;
    var c := Prev(x, n, m, i, j);
    if c.0 > 0 { TrailIsMonotone(x, n, m, c.0, c.1); }
  }

  // The path's elements sum up to the cost in the table.
  lemma {:induction false} TrailSum(x: Matrix, n: nat, m: nat, i: nat, j: nat)
    requires Shape(x, n, m) && 0 < i <= n && 0 < j <= m
    ensures Within(Trail(x, n, m, i, j), n, m)
    ensures CostAt(x, n, m, i, j) == Fin(PathSum(x, n, m, Trail(x, n, m, i, j)))
    decreases i + j
  {
    TrailWithin(x, n, m, i, j);
    CostStep(x, n, m, i, j);
    hide Prev, Within, PathSum, CostAt, Shape;
    var c := Prev(x, n, m, i, j);
    var q := Trail(x, n, m, c.0, c.1);
    assert Trail(x, n, m, i, j) == q + [(i - 1, j - 1)];
    hide Trail;
    SumPush(x, n, m, q, (i - 1, j - 1));
    if c.0 > 0 { TrailSum(x, n, m, c.0, c.1); } else { NoTrail(x, n, m); }
  }

  lemma TrailWithin(x: Matrix, n: nat, m: nat, i: nat, j: nat)
    requires Shape(x, n, m) && 0 < i <= n && 0 < j <= m
    ensures Within(Trail(x, n, m, i, j), n, m)
  {
    TrailIsMonotone(x, n, m, i, j);
    MonotoneWithin(Trail(x, n, m, i, j), i, j);
  }

  lemma SumPush(x: Matrix, n: nat, m: nat, q: Path, c: (int, int))
    requires Shape(x, n, m) && Within(q + [c], n, m) && 0 <= c.0 < n && 0 <= c.1 < m
    ensures Within(q, n, m) && PathSum(x, n, m, q + [c]) == x[c.0][c.1] + PathSum(x, n, m, q)
  {
    var p := q + [c];
    assert p[..|p| - 1] == q && p[|p| - 1] == c;
    assert forall k :: 0 <= k < |q| ==> q[k] == p[k];
  }

  lemma NoTrail(x: Matrix, n: nat, m: nat)
    requires Shape(x, n, m)
    ensures Trail(x, n, m, 0, 0) == [] && PathSum(x, n, m, []) == 0.0 && CostAt(x, n, m, 0, 0) == Fin(0.0)
  {
  }

  // ---- the least cost ----

  function Min(a: real, b: real): real { if a < b then a else b }

  function Least(x: Matrix, n: nat, m: nat, i: nat, j: nat): real
    requires Shape(x, n, m) && 0 < i <= n && 0 < j <= m
    decreases i + j
  {
    x[i - 1][j - 1] +
      (if i == 1 && j == 1 then 0.0
       else if i == 1 then Least(x, n, m, i, j - 1)
       else if j == 1 then Least(x, n, m, i - 1, j)
       else Min(Least(x, n, m, i - 1, j - 1), Min(Least(x, n, m, i - 1, j), Least(x, n, m, i, j - 1))))
  }

  lemma LeastStep(x: Matrix, n: nat, m: nat, c: (nat, nat), d: (nat, nat))
    requires Shape(x, n, m) && 0 < c.0 && 0 < c.1 && d.0 <= n && d.1 <= m && StepTo(c, d)
    ensures Least(x, n, m, d.0, d.1) <= x[d.0 - 1][d.1 - 1] + Least(x, n, m, c.0, c.1)
  {
  }

  lemma MonotonePop(p: Path, i: int, j: int) returns (q: Path, a: int, b: int)
    requires Monotone(p, i, j) && |p| > 1
    ensures p == q + [(i - 1, j - 1)] && Monotone(q, a, b) && StepTo((a - 1, b - 1), (i - 1, j - 1))
  {
    q := p[..|p| - 1];
    a, b := q[|q| - 1].0 + 1, q[|q| - 1].1 + 1;
    assert StepTo(p[|p| - 2], p[|p| - 1]);
  }

  lemma {:induction false} LeastIsLower(x: Matrix, n: nat, m: nat, p: Path, i: nat, j: nat)
    requires Shape(x, n, m) && i <= n && j <= m && Monotone(p, i, j)
    ensures 0 < i && 0 < j && Within(p, n, m) && PathSum(x, n, m, p) >= Least(x, n, m, i, j)
    decreases |p|
  {
    MonotoneWithin(p, i, j);
    hide PathSum, Monotone, Least, Within;
    if |p| > 1 {
      var q, a, b := MonotonePop(p, i, j);
      MonotoneWithin(q, a, b);
      WithinPush(n, m, q, (i - 1, j - 1));
      SumPush(x, n, m, q, (i - 1, j - 1));
      LeastStep(x, n, m, (a, b), (i, j));
      LeastIsLower(x, n, m, q, a, b);
    } else {
      SinglePath(x, n, m, p, i, j);
    }
  }

  lemma SinglePath(x: Matrix, n: nat, m: nat, p: Path, i: nat, j: nat)
    requires Shape(x, n, m) && i <= n && j <= m && Monotone(p, i, j) && |p| == 1
    ensures i == 1 && j == 1 && Within(p, n, m) && PathSum(x, n, m, p) == Least(x, n, m, i, j)
  {
    assert p == [] + [(0, 0)];
    SumPush(x, n, m, [], (0, 0));
    NoTrail(x, n, m);
  }

  lemma WithinPush(n: nat, m: nat, q: Path, c: (int, int))
    requires Within(q, n, m) && 0 <= c.0 < n && 0 <= c.1 < m
    ensures Within(q + [c], n, m)
  {
  }

  // ---- when the table is optimal ----

  // two equal predecessors are both passed over for a dearer third
  predicate BadTie(x: Matrix, n: nat, m: nat, i: nat, j: nat)
    requires Shape(x, n, m) && 0 < i <= n && 0 < j <= m
  {
    CostAt(x, n, m, i - 1, j - 1) == CostAt(x, n, m, i - 1, j) &&
    Less(CostAt(x, n, m, i - 1, j), CostAt(x, n, m, i, j - 1))
  }

  predicate NoBadTie(x: Matrix, n: nat, m: nat)
    requires Shape(x, n, m)
  {
    forall i, j :: 0 < i <= n && 0 < j <= m ==> !BadTie(x, n, m, i, j)
  }

  // the table is never below the least cost: its own path costs as much
  lemma CostIsReached(x: Matrix, n: nat, m: nat, i: nat, j: nat)
    requires Shape(x, n, m) && 0 < i <= n && 0 < j <= m
    ensures CostAt(x, n, m, i, j).Fin? && CostAt(x, n, m, i, j).v >= Least(x, n, m, i, j)
  {
    TrailIsMonotone(x, n, m, i, j);
    TrailSum(x, n, m, i, j);
    LeastIsLower(x, n, m, Trail(x, n, m, i, j), i, j);
  }

  function MinCost(a: Cost, b: Cost): Cost { if Less(a, b) then a else b }

  // the least cost, borders included
  function LeastFrom(x: Matrix, n: nat, m: nat, i: nat, j: nat): Cost
    requires Shape(x, n, m) && i <= n && j <= m
  {
    if i > 0 && j > 0 then Fin(Least(x, n, m, i, j)) else if i == j then Fin(0.0) else Inf
  }

  lemma LeastCell(x: Matrix, n: nat, m: nat, i: nat, j: nat)
    requires Shape(x, n, m) && 0 < i <= n && 0 < j <= m
    ensures LeastFrom(x, n, m, i, j) ==
            Plus(x[i - 1][j - 1],
                 MinCost(LeastFrom(x, n, m, i - 1, j - 1),
                         MinCost(LeastFrom(x, n, m, i - 1, j), LeastFrom(x, n, m, i, j - 1))))
  {
  }

  lemma ChosenIsLeast(c0: Cost, c1: Cost, c2: Cost)
    requires !(c0 == c1 && Less(c1, c2))
    ensures Chosen(c0, c1, c2) == MinCost(c0, MinCost(c1, c2))
  {
  }

  lemma {:induction false} CostIsLeast(x: Matrix, n: nat, m: nat, i: nat, j: nat)
    requires Shape(x, n, m) && i <= n && j <= m && NoBadTie(x, n, m)
    ensures CostAt(x, n, m, i, j) == LeastFrom(x, n, m, i, j)
    decreases i + j
  {
    if i > 0 && j > 0 {
      assert !BadTie(x, n, m, i, j);
      ChosenIsLeast(CostAt(x, n, m, i - 1, j - 1), CostAt(x, n, m, i - 1, j), CostAt(x, n, m, i, j - 1));
      hide NoBadTie, LeastFrom, Chosen, MinCost;
      CostIsLeast(x, n, m, i - 1, j - 1);
      CostIsLeast(x, n, m, i - 1, j);
      CostIsLeast(x, n, m, i, j - 1);
      LeastCell(x, n, m, i, j);
    }
  }

  // The table holds the least costs exactly when no cell has such a tie.
  lemma OptimalExactlyWhen(x: Matrix, n: nat, m: nat)
    requires Shape(x, n, m)
    ensures (forall i, j :: 0 < i <= n && 0 < j <= m ==> CostAt(x, n, m, i, j) == Fin(Least(x, n, m, i, j))) <==>
            NoBadTie(x, n, m)
  {
    if NoBadTie(x, n, m) {
      forall i, j | 0 < i <= n && 0 < j <= m ensures CostAt(x, n, m, i, j) == Fin(Least(x, n, m, i, j)) {
        CostIsLeast(x, n, m, i, j);
      }
    } else {
      var i, j :| 0 < i <= n && 0 < j <= m && BadTie(x, n, m, i, j);
      TieCosts(x, n, m, i, j);
    }
  }

  // at such a tie the table is too high
  lemma TieCosts(x: Matrix, n: nat, m: nat, i: nat, j: nat)
    requires Shape(x, n, m) && 0 < i <= n && 0 < j <= m && BadTie(x, n, m, i, j)
    ensures CostAt(x, n, m, i, j).Fin? && CostAt(x, n, m, i, j).v > Least(x, n, m, i, j)
  {
    hide CostAt, TraceAt, Least, Choice, Chosen, Less, Plus;
    Inside(x, n, m, i, j);
    CellRule(x, n, m, i, j);
    TieCell(x[i - 1][j - 1], CostAt(x, n, m, i - 1, j - 1), CostAt(x, n, m, i - 1, j), CostAt(x, n, m, i, j - 1));
    Border(x, n, m, i - 1, j - 1);
    Border(x, n, m, i - 1, j);
    if i > 1 && j > 1 {
      CostIsReached(x, n, m, i - 1, j - 1);
      LeastStep(x, n, m, (i - 1, j - 1), (i, j));
    }
  }

  lemma TieCell(d: real, c0: Cost, c1: Cost, c2: Cost)
    requires c0 == c1 && Less(c1, c2)
    ensures var c := Plus(d, Chosen(c0, c1, c2)); c0.Fin? && (c.Fin? ==> c.v > d + c0.v)
  {
  }

  lemma Border(x: Matrix, n: nat, m: nat, i: nat, j: nat)
    requires Shape(x, n, m) && i <= n && j <= m
    ensures i == 0 || j == 0 ==> CostAt(x, n, m, i, j) == if i == j then Fin(0.0) else Inf
  {
  }

  // ---- when the path found is cheapest ----

  ghost predicate Cheapest(x: Matrix, n: nat, m: nat, p: Path)
    requires Shape(x, n, m)
  {
    && Monotone(p, n, m) && Within(p, n, m)
    && forall q :: Monotone(q, n, m) && Within(q, n, m) ==> PathSum(x, n, m, p) <= PathSum(x, n, m, q)
  }

  // no cell on the path has a bad tie
  predicate AvoidsTies(x: Matrix, n: nat, m: nat, p: Path)
    requires Shape(x, n, m) && Within(p, n, m)
  {
    forall k :: 0 <= k < |p| ==> !BadTie(x, n, m, p[k].0 + 1, p[k].1 + 1)
  }

  // the predecessor that the least cost comes from
  lemma LeastFromPrev(x: Matrix, n: nat, m: nat, i: nat, j: nat) returns (c: (nat, nat))
    requires Shape(x, n, m) && 0 < i <= n && 0 < j <= m && i + j > 2
    ensures 0 < c.0 <= i && 0 < c.1 <= j && c.0 + c.1 < i + j && StepTo((c.0 - 1, c.1 - 1), (i - 1, j - 1))
    ensures Least(x, n, m, i, j) == x[i - 1][j - 1] + Least(x, n, m, c.0, c.1)
  {
    if i == 1 {
      c := (i, j - 1);
    } else if j == 1 {
      c := (i - 1, j);
    } else {
      var a, b := Least(x, n, m, i - 1, j - 1), Least(x, n, m, i - 1, j);
      var d := Least(x, n, m, i, j - 1);
      c := if a < Min(b, d) then (i - 1, j - 1) else if b < d then (i - 1, j) else (i, j - 1);
    }
  }

  lemma MonotonePush(q: Path, i: int, j: int, c: (int, int))
    requires Monotone(q, i, j) && StepTo((i - 1, j - 1), c)
    ensures Monotone(q + [c], c.0 + 1, c.1 + 1)
  {
  }

  // the least cost is the cost of a path
  lemma {:induction false} LeastIsReached(x: Matrix, n: nat, m: nat, i: nat, j: nat) returns (p: Path)
    requires Shape(x, n, m) && 0 < i <= n && 0 < j <= m
    ensures Monotone(p, i, j) && Within(p, n, m) && PathSum(x, n, m, p) == Least(x, n, m, i, j)
    decreases i + j
  {
    if i + j == 2 {
      NoTrail(x, n, m);
      p := [(0, 0)];
      SumPush(x, n, m, [], (0, 0));
      assert [] + p == p;
    } else {
      hide PathSum, Least, Monotone, Within;
      var c := LeastFromPrev(x, n, m, i, j);
      var q := LeastIsReached(x, n, m, c.0, c.1);
      MonotonePush(q, c.0, c.1, (i - 1, j - 1));
      WithinPush(n, m, q, (i - 1, j - 1));
      SumPush(x, n, m, q, (i - 1, j - 1));
      p := q + [(i - 1, j - 1)];
    }
  }

  lemma AvoidsPop(x: Matrix, n: nat, m: nat, q: Path, c: (int, int))
    requires Shape(x, n, m) && Within(q + [c], n, m) && AvoidsTies(x, n, m, q + [c])
    ensures Within(q, n, m) && AvoidsTies(x, n, m, q)
    ensures 0 <= c.0 < n && 0 <= c.1 < m && !BadTie(x, n, m, c.0 + 1, c.1 + 1)
  {
    var p := q + [c];
    assert p[|q|] == c && forall k :: 0 <= k < |q| ==> q[k] == p[k];
  }

  // without a bad tie the cheapest predecessor is chosen
  lemma TieFreeCell(x: Matrix, n: nat, m: nat, i: nat, j: nat, a: nat, b: nat)
    requires Shape(x, n, m) && 0 < i <= n && 0 < j <= m && !BadTie(x, n, m, i, j)
    requires i <= a + 1 && a <= i && j <= b + 1 && b <= j && (a, b) != (i, j)
    ensures CostAt(x, n, m, a, b).Fin? ==>
              CostAt(x, n, m, i, j).Fin? && CostAt(x, n, m, i, j).v <= x[i - 1][j - 1] + CostAt(x, n, m, a, b).v
  {
    hide CostAt, Chosen, Shape;
    CellRule(x, n, m, i, j);
    ChosenBelow(CostAt(x, n, m, i - 1, j - 1), CostAt(x, n, m, i - 1, j), CostAt(x, n, m, i, j - 1));
    assert (a, b) == (i - 1, j - 1) || (a, b) == (i - 1, j) || (a, b) == (i, j - 1);
  }

  lemma ChosenBelow(c0: Cost, c1: Cost, c2: Cost)
    requires !(c0 == c1 && Less(c1, c2))
    ensures var c := Chosen(c0, c1, c2);
            && (c0.Fin? || c1.Fin? || c2.Fin? ==> c.Fin?)
            && (c0.Fin? ==> c.v <= c0.v) && (c1.Fin? ==> c.v <= c1.v) && (c2.Fin? ==> c.v <= c2.v)
  {
  }

  // The table is at most as high as any path that avoids bad ties.
  lemma {:induction false} TieFreeIsUpper(x: Matrix, n: nat, m: nat, p: Path, i: nat, j: nat)
    requires Shape(x, n, m) && i <= n && j <= m && Monotone(p, i, j) && Within(p, n, m) && AvoidsTies(x, n, m, p)
    ensures CostAt(x, n, m, i, j).Fin? && CostAt(x, n, m, i, j).v <= PathSum(x, n, m, p)
    decreases |p|
  {
    MonotoneWithin(p, i, j);
    NoTrail(x, n, m);
    if |p| == 1 {
      assert p == [] + [(0, 0)];
      AvoidsPop(x, n, m, [], (0, 0));
      SumPush(x, n, m, [], (0, 0));
      TieFreeCell(x, n, m, 1, 1, 0, 0);
    } else {
      hide CostAt, PathSum, Monotone, AvoidsTies, BadTie, Within;
      var q, a, b := MonotonePop(p, i, j);
      MonotoneWithin(q, a, b);
      AvoidsPop(x, n, m, q, (i - 1, j - 1));
      SumPush(x, n, m, q, (i - 1, j - 1));
      TieFreeIsUpper(x, n, m, q, a, b);
      TieFreeCell(x, n, m, i, j, a, b);
    }
  }

  // A table entry that is least was reached along such a path.
  lemma {:induction false} LeastTrailAvoids(x: Matrix, n: nat, m: nat, i: nat, j: nat)
    requires Shape(x, n, m) && 0 < i <= n && 0 < j <= m && CostAt(x, n, m, i, j) == Fin(Least(x, n, m, i, j))
    ensures Within(Trail(x, n, m, i, j), n, m) && AvoidsTies(x, n, m, Trail(x, n, m, i, j))
    decreases i + j
  {
    hide CostAt, Least, Prev, BadTie;
    TrailWithin(x, n, m, i, j);
    if BadTie(x, n, m, i, j) { TieCosts(x, n, m, i, j); }
    CostStep(x, n, m, i, j);
    var c := Prev(x, n, m, i, j);
    assert Trail(x, n, m, i, j) == Trail(x, n, m, c.0, c.1) + [(i - 1, j - 1)];
    if c.0 > 0 {
      LeastStep(x, n, m, c, (i, j));
      CostIsReached(x, n, m, c.0, c.1);
      hide Trail;
      LeastTrailAvoids(x, n, m, c.0, c.1);
    }
  }

  // what the path found costs decides whether it is cheapest
  lemma CheapestIffLeast(x: Matrix, n: nat, m: nat)
    requires Shape(x, n, m) && n > 0 && m > 0
    ensures Cheapest(x, n, m, Trail(x, n, m, n, m)) <==> CostAt(x, n, m, n, m) == Fin(Least(x, n, m, n, m))
  {
    var t := Trail(x, n, m, n, m);
    TrailIsMonotone(x, n, m, n, m);
    TrailSum(x, n, m, n, m);
    hide Trail, PathSum, Monotone, CostAt, Least;
    LeastIsLower(x, n, m, t, n, m);
    var p := LeastIsReached(x, n, m, n, m);
    if CostAt(x, n, m, n, m) == Fin(Least(x, n, m, n, m)) {
      forall q | Monotone(q, n, m) && Within(q, n, m) ensures PathSum(x, n, m, t) <= PathSum(x, n, m, q) {
        LeastIsLower(x, n, m, q, n, m);
      }
    }
  }

  // The path found is cheapest exactly when some cheapest path avoids bad ties.
  lemma CheapestExactlyWhen(x: Matrix, n: nat, m: nat)
    requires Shape(x, n, m) && n > 0 && m > 0
    ensures Cheapest(x, n, m, Trail(x, n, m, n, m)) <==>
            exists p :: Cheapest(x, n, m, p) && AvoidsTies(x, n, m, p)
  {
    var t := Trail(x, n, m, n, m);
    TrailIsMonotone(x, n, m, n, m);
    TrailSum(x, n, m, n, m);
    hide Trail, PathSum, Monotone, AvoidsTies, CostAt, Least;
    if p :| Cheapest(x, n, m, p) && AvoidsTies(x, n, m, p) {
      TieFreeIsUpper(x, n, m, p, n, m);
    }
    if Cheapest(x, n, m, t) {
      CheapestIffLeast(x, n, m);
      LeastTrailAvoids(x, n, m, n, m);
    }
  }

  // two tokens, three frames: a bad tie at (2, 2), but the path found is cheapest
  lemma HarmlessTie()
    ensures var x := [[0.0, 0.0, 1.0], [5.0, 5.0, 0.0]];
            BadTie(x, 2, 3, 2, 2) && Cheapest(x, 2, 3, Trail(x, 2, 3, 2, 3))
  {
    var x: Matrix := [[0.0, 0.0, 1.0], [5.0, 5.0, 0.0]];
    assert CostAt(x, 2, 3, 1, 1) == Fin(0.0) && Least(x, 2, 3, 1, 1) == 0.0;
    assert CostAt(x, 2, 3, 1, 2) == Fin(0.0) && Least(x, 2, 3, 1, 2) == 0.0;
    assert CostAt(x, 2, 3, 1, 3) == Fin(1.0) && Least(x, 2, 3, 1, 3) == 1.0;
    assert CostAt(x, 2, 3, 2, 1) == Fin(5.0) && Least(x, 2, 3, 2, 1) == 5.0;
    assert CostAt(x, 2, 3, 2, 2) == Fin(10.0) && Least(x, 2, 3, 2, 2) == 5.0;
    hide Cheapest, Trail;
    CheapestIffLeast(x, 2, 3);
  }

  // two tokens, two frames: the path found costs 1, the diagonal 0
  lemma TieExample()
    ensures var x := [[0.0, 0.0], [1.0, 0.0]];
            CostAt(x, 2, 2, 2, 2) == Fin(1.0) && Least(x, 2, 2, 2, 2) == 0.0 &&
            !Cheapest(x, 2, 2, Trail(x, 2, 2, 2, 2))
  {
    var x: Matrix := [[0.0, 0.0], [1.0, 0.0]];
    assert CostAt(x, 2, 2, 1, 1) == Fin(0.0) && Least(x, 2, 2, 1, 1) == 0.0;
    assert CostAt(x, 2, 2, 1, 2) == Fin(0.0) && Least(x, 2, 2, 1, 2) == 0.0;
    assert CostAt(x, 2, 2, 2, 1) == Fin(1.0) && Least(x, 2, 2, 2, 1) == 1.0;
    hide Cheapest, Trail;
    CheapestIffLeast(x, 2, 2);
  }

  // ---- the algorithm ----

  function PathOf(r: array2<int>): Path
    requires r.Length0 == 2
    reads r
  {
    seq(r.Length1, k requires 0 <= k < r.Length1 reads r => (r[0, k], r[1, k]))
  }

  // the first row, the first column and everything before column cols
  ghost predicate Filled(x: Matrix, n: nat, m: nat, cost: array2<Cost>, trace: array2<int>, cols: nat)
    requires Shape(x, n, m)
    requires cost.Length0 == trace.Length0 == n + 1 && cost.Length1 == trace.Length1 == m + 1
    reads cost, trace
  {
    && (forall i: nat, j: nat :: i <= n && j <= m && (i == 0 || j == 0 || j < cols) ==>
          cost[i, j] == CostAt(x, n, m, i, j))
    && (forall i: nat, j: nat :: i <= n && j <= m && (i == 0 || j == 0 || j < cols) ==>
          trace[i, j] == TraceAt(x, n, m, i, j))
  }

  method FillTables(x: Matrix, n: nat, m: nat) returns (cost: array2<Cost>, trace: array2<int>)
    requires Shape(x, n, m)
    ensures fresh(cost) && fresh(trace) && cost.Length0 == trace.Length0 == n + 1
    ensures cost.Length1 == trace.Length1 == m + 1
    ensures Filled(x, n, m, cost, trace, m + 1)
  {
    cost := new Cost[n + 1, m + 1]((_, _) => Inf);
    trace := new int[n + 1, m + 1]((_, _) => -1);
    cost[0, 0] := Fin(0.0);
    assert Filled(x, n, m, cost, trace, 0);
    hide CostAt, TraceAt;
    for j := 1 to m + 1
      invariant Filled(x, n, m, cost, trace, j)
    {
      FillColumn(x, n, m, cost, trace, j);
    }
  }

  method FillColumn(x: Matrix, n: nat, m: nat, cost: array2<Cost>, trace: array2<int>, j: nat)
    requires Shape(x, n, m) && 0 < j <= m
    requires cost.Length0 == trace.Length0 == n + 1 && cost.Length1 == trace.Length1 == m + 1
    requires Filled(x, n, m, cost, trace, j)
    modifies cost, trace
    ensures Filled(x, n, m, cost, trace, j + 1)
  {
    hide CostAt, TraceAt, Plus, Choice, Chosen, Less;
    for i := 1 to n + 1
      invariant Filled(x, n, m, cost, trace, j)
      invariant forall k: nat :: k < i ==> cost[k, j] == CostAt(x, n, m, k, j)
      invariant forall k: nat :: k < i ==> trace[k, j] == TraceAt(x, n, m, k, j)
    {
      CellRule(x, n, m, i, j);
      var c, t := FillCell(cost[i - 1, j - 1], cost[i - 1, j], cost[i, j - 1]);
      cost[i, j] := Plus(x[i - 1][j - 1], c);
      trace[i, j] := t;
    }
  }

  method FillCell(c0: Cost, c1: Cost, c2: Cost) returns (c: Cost, t: int)
    ensures t == Choice(c0, c1, c2) && c == Chosen(c0, c1, c2)
  {
    if Less(c0, c1) && Less(c0, c2) {
      c, t := c0, 0;
    } else if Less(c1, c0) && Less(c1, c2) {
      c, t := c1, 1;
    } else {
      c, t := c2, 2;
    }
  }

  lemma CellRule(x: Matrix, n: nat, m: nat, i: nat, j: nat)
    requires Shape(x, n, m) && 0 < i <= n && 0 < j <= m
    ensures var c0, c1, c2 := CostAt(x, n, m, i - 1, j - 1), CostAt(x, n, m, i - 1, j), CostAt(x, n, m, i, j - 1);
            TraceAt(x, n, m, i, j) == Choice(c0, c1, c2) &&
            CostAt(x, n, m, i, j) == Plus(x[i - 1][j - 1], Chosen(c0, c1, c2))
  {
  }

  // the inside of the trace table
  ghost predicate Traced(x: Matrix, n: nat, m: nat, trace: array2<int>)
    requires Shape(x, n, m) && trace.Length0 == n + 1 && trace.Length1 == m + 1
    reads trace
  {
    forall i: nat, j: nat :: 0 < i <= n && 0 < j <= m ==> trace[i, j] == TraceAt(x, n, m, i, j)
  }

  method Backtrace(x: Matrix, n: nat, m: nat, trace: array2<int>) returns (r: array2<int>)
    requires Shape(x, n, m) && n > 0 && m > 0 && trace.Length0 == n + 1 && trace.Length1 == m + 1
    requires Traced(x, n, m, trace)
    modifies trace
    ensures fresh(r) && r.Length0 == 2 && PathOf(r) == Trail(x, n, m, n, m)
  {
    hide TraceAt, Prev, Trail, Shape, Traced;
    var rows := n + m - 1;
    var bt := new int[rows, 2];
    SetBorders(x, n, m, trace);
    var row := rows - 1;
    var i, j := n, m;
    ghost var tail: Path := [];
    while i > 0 || j > 0
      invariant Traced(x, n, m, trace)
      invariant 0 <= i <= n && 0 <= j <= m && (i == 0 <==> j == 0) && -1 <= row && (i > 0 ==> row + 1 >= i + j - 1)
      invariant |tail| == rows - 1 - row && Trail(x, n, m, n, m) == Trail(x, n, m, i, j) + tail
      invariant forall k :: row < k < rows ==> (bt[k, 0], bt[k, 1]) == tail[k - row - 1]
      decreases i + j
    {
      bt[row, 0] := i - 1;
      bt[row, 1] := j - 1;
      row := row - 1;
      TrailStep(x, n, m, i, j, tail);
      PrevFollowsTrace(x, n, m, trace, i, j);
      tail := [(i - 1, j - 1)] + tail;
      var t := trace[i, j];
      if t == 0 {
        i, j := i - 1, j - 1;
      } else if t == 1 {
        i := i - 1;
      } else {
        j := j - 1;
      }
    }
    var cols := rows - row - 1;
    TrailStart(x, n, m, tail);
    r := Columns(bt, row + 1, cols);
    assert forall b :: 0 <= b < cols ==> (r[0, b], r[1, b]) == tail[b];
  }

  method SetBorders(x: Matrix, n: nat, m: nat, trace: array2<int>)
    requires Shape(x, n, m) && trace.Length0 == n + 1 && trace.Length1 == m + 1
    requires Traced(x, n, m, trace)
    modifies trace
    ensures Traced(x, n, m, trace)
  {
    hide TraceAt, Shape;
    for k := 0 to m + 1
      invariant Traced(x, n, m, trace)
    {
      trace[0, k] := 2;
    }
    for k := 0 to n + 1
      invariant Traced(x, n, m, trace)
    {
      trace[k, 0] := 1;
    }
  }

  lemma TrailStep(x: Matrix, n: nat, m: nat, i: nat, j: nat, tail: Path)
    requires Shape(x, n, m) && 0 < i <= n && 0 < j <= m
    ensures var c := Prev(x, n, m, i, j);
            Trail(x, n, m, i, j) + tail == Trail(x, n, m, c.0, c.1) + ([(i - 1, j - 1)] + tail)
  {
    hide Prev;
  }

  lemma TrailStart(x: Matrix, n: nat, m: nat, tail: Path)
    requires Shape(x, n, m)
    ensures Trail(x, n, m, 0, 0) + tail == tail
  {
  }

  lemma PrevFollowsTrace(x: Matrix, n: nat, m: nat, trace: array2<int>, i: nat, j: nat)
    requires Shape(x, n, m) && 0 < i <= n && 0 < j <= m && trace.Length0 == n + 1 && trace.Length1 == m + 1
    requires Traced(x, n, m, trace)
    ensures var t := trace[i, j];
            Prev(x, n, m, i, j) == if t == 0 then (i - 1, j - 1) else if t == 1 then (i - 1, j) else (i, j - 1)
  {
  }

  // clips and transposes
  method Columns(bt: array2<int>, from: nat, cols: nat) returns (r: array2<int>)
    requires bt.Length1 == 2 && from + cols <= bt.Length0
    ensures fresh(r) && r.Length0 == 2 && r.Length1 == cols
    ensures forall b :: 0 <= b < cols ==> r[0, b] == bt[from + b, 0] && r[1, b] == bt[from + b, 1]
  {
    r := new int[2, cols];
    for k := 0 to 2
      invariant forall a, b :: 0 <= a < k && 0 <= b < cols ==> r[a, b] == bt[from + b, a]
    {
      for l := 0 to cols
        invariant forall a, b :: 0 <= a < k && 0 <= b < cols ==> r[a, b] == bt[from + b, a]
        invariant forall b :: 0 <= b < l ==> r[k, b] == bt[from + b, k]
      {
        r[k, l] := bt[from + l, k];
      }
    }
  }

  // The path found is monotone and costs what the table says; no monotone path costs less exactly
  // when some cheapest path avoids bad ties.
  method DtwAndBacktrace(x: Matrix, n: nat, m: nat) returns (r: array2<int>)
    requires Shape(x, n, m) && n > 0 && m > 0
    ensures fresh(r) && r.Length0 == 2 && r.Length1 <= n + m - 1
    ensures Monotone(PathOf(r), n, m) && Within(PathOf(r), n, m)
    ensures CostAt(x, n, m, n, m) == Fin(PathSum(x, n, m, PathOf(r)))
    ensures Cheapest(x, n, m, PathOf(r)) <==> exists p :: Cheapest(x, n, m, p) && AvoidsTies(x, n, m, p)
    ensures NoBadTie(x, n, m) ==> Cheapest(x, n, m, PathOf(r))
  {
    hide CostAt, TraceAt, Trail, Least, Monotone, PathSum, NoBadTie, AvoidsTies, Cheapest;
    var cost, trace := FillTables(x, n, m);
    r := Backtrace(x, n, m, trace);
    TrailIsMonotone(x, n, m, n, m);
    TrailSum(x, n, m, n, m);
    MonotoneWithin(PathOf(r), n, m);
    CheapestExactlyWhen(x, n, m);
    if NoBadTie(x, n, m) { CheapestWithoutTies(x, n, m); }
  }

  lemma CheapestWithoutTies(x: Matrix, n: nat, m: nat)
    requires Shape(x, n, m) && n > 0 && m > 0 && NoBadTie(x, n, m)
    ensures Cheapest(x, n, m, Trail(x, n, m, n, m))
  {
    CostIsLeast(x, n, m, n, m);
    CheapestIffLeast(x, n, m);
  }
}
