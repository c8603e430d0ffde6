// Which grammars the engine terminates on: those without left recursion.
module GrammarRank {
  import opened GrammarRules
  import opened GrammarEngine

  // every alternate that can derive the empty string makes its rule nullable
  ghost predicate NullClosed(g: Grammar)
    requires WellFormedRules(g.rules) && |g.nullable| == |g.rules|
  {
    forall k, i :: 0 <= k < |g.rules| && AltStart(g.rules[k], i) && NullRest(g, g.rules[k], i) ==> g.nullable[k]
  }

  // a rule that can come first, after nullable ones, ranks below b
  predicate FirstsBelow(g: Grammar, rank: seq<nat>, b: nat, r: Rule, i: nat)
    requires |g.nullable| == |g.rules| == |rank| && WellFormedRule(r, |g.rules|) && i < |r|
    decreases |r| - i
  {
    r[i].kind.RuleRef? ==>
      rank[r[i].value] < b && (g.nullable[r[i].value] ==> FirstsBelow(g, rank, b, r, i + 1))
  }

  ghost predicate RulesOutLeftRecursion(g: Grammar, rank: seq<nat>)
    requires WellFormedRules(g.rules) && |g.nullable| == |g.rules| == |rank|
  {
    forall k, i :: 0 <= k < |g.rules| && AltStart(g.rules[k], i) ==> FirstsBelow(g, rank, rank[k], g.rules[k], i)
  }

  function LongestRule(rules: seq<Rule>): (n: nat)
    ensures forall k :: 0 <= k < |rules| ==> |rules[k]| <= n
  {
    if rules == [] then 0
    else
      var n := LongestRule(rules[1..]);
      if |rules[0]| > n then |rules[0]| else n
  }

  // n elements of cost w each
  function Times(n: nat, w: nat): nat { n * w }

  lemma TimesMore(n: nat, m: nat, v: nat, w: nat)
    requires n <= m && v <= w
    ensures Times(n, v) <= Times(m, w)
  {
    assert n * v <= n * w && n * w <= m * w;
  }

  lemma TimesStep(n: nat, w: nat)
    ensures Times(n + 1, w) == w + Times(n, w) && Times(1, w) == w
  {
  }

  // a weight that only depends on the rank
  function WeightOfRank(len: nat, rank: nat): nat {
    if rank == 0 then 0 else Times(len, 1 + WeightOfRank(len, rank - 1))
  }

  lemma {:induction false} WeightGrows(len: nat, a: nat, b: nat)
    requires a <= b && len > 0
    ensures WeightOfRank(len, a) <= WeightOfRank(len, b)
    decreases b
  {
    hide Times;
    if a < b {
      WeightGrows(len, a, b - 1);
      TimesMore(1, len, 1 + WeightOfRank(len, b - 1), 1 + WeightOfRank(len, b - 1));
      TimesStep(0, 1 + WeightOfRank(len, b - 1));
    }
  }

  function Weights(rules: seq<Rule>, rank: seq<nat>): seq<nat> {
    seq(|rank|, k requires 0 <= k < |rank| => WeightOfRank(LongestRule(rules), rank[k]))
  }

  // the cost of an alternate: each element of the rule counts at most once
  lemma {:induction false} CostBound(g: Grammar, rank: seq<nat>, b: nat, r: Rule, i: nat)
    requires |g.nullable| == |g.rules| == |rank| && WellFormedRule(r, |g.rules|) && i < |r|
    requires g.weight == Weights(g.rules, rank) && |r| <= LongestRule(g.rules)
    requires b > 0 && FirstsBelow(g, rank, b, r, i)
    ensures Cost(g, r, i) <= Times(|r| - i, 1 + WeightOfRank(LongestRule(g.rules), b - 1))
    decreases |r| - i
  {
    var w := 1 + WeightOfRank(LongestRule(g.rules), b - 1);
    hide Times, WeightOfRank, LongestRule;
    TimesStep(|r| - i - 1, w);
    if r[i].kind.RuleRef? {
      WeightGrows(LongestRule(g.rules), rank[r[i].value], b - 1);
      if g.nullable[r[i].value] { CostBound(g, rank, b, r, i + 1); }
    }
  }

  lemma {:induction false} CostCovers(g: Grammar, b: nat, r: Rule, i: nat)
    requires |g.nullable| == |g.rules| == |g.weight| && WellFormedRule(r, |g.rules|) && i < |r|
    requires Cost(g, r, i) <= b
    ensures FirstsBelow(g, g.weight, b, r, i)
    decreases |r| - i
  {
    if r[i].kind.RuleRef? && g.nullable[r[i].value] { CostCovers(g, b, r, i + 1); }
  }

  lemma RankedCost(g: Grammar, h: Grammar, rank: seq<nat>, k: nat, i: nat)
    requires WellFormedRules(g.rules) && |g.nullable| == |g.rules| == |rank|
    requires h == g.(weight := Weights(g.rules, rank)) && k < |g.rules| && AltStart(g.rules[k], i)
    requires FirstsBelow(g, rank, rank[k], g.rules[k], i)
    ensures Cost(h, h.rules[k], i) <= h.weight[k]
  {
    var len := LongestRule(g.rules);
    FirstsBelowSame(g, h, rank, rank[k], g.rules[k], i);
    hide Times, LongestRule;
    if rank[k] > 0 {
      CostBound(h, rank, rank[k], h.rules[k], i);
      TimesMore(|h.rules[k]| - i, len, 1 + WeightOfRank(len, rank[k] - 1), 1 + WeightOfRank(len, rank[k] - 1));
    }
  }

  // A rank that rules out left recursion is all it takes to bound the expansions of every stack.
  lemma RankSuffices(g: Grammar, rank: seq<nat>)
    requires WellFormedRules(g.rules) && |g.nullable| == |g.rules| == |rank| && NullClosed(g)
    requires RulesOutLeftRecursion(g, rank)
    ensures WellFormed(g.(weight := Weights(g.rules, rank)))
  {
    var h := g.(weight := Weights(g.rules, rank));
    forall k, i | 0 <= k < |h.rules| && AltStart(h.rules[k], i)
      ensures Cost(h, h.rules[k], i) <= h.weight[k]
    {
      RankedCost(g, h, rank, k, i);
    }
    forall k, i | 0 <= k < |h.rules| && AltStart(h.rules[k], i) && NullRest(h, h.rules[k], i)
      ensures h.nullable[k]
    {
      NullRestSame(g, h, g.rules[k], i);
    }
  }

  lemma {:induction false} FirstsBelowSame(g: Grammar, h: Grammar, rank: seq<nat>, b: nat, r: Rule, i: nat)
    requires |g.nullable| == |g.rules| == |rank| && WellFormedRule(r, |g.rules|) && i < |r|
    requires g.rules == h.rules && g.nullable == h.nullable
    ensures FirstsBelow(g, rank, b, r, i) <==> FirstsBelow(h, rank, b, r, i)
    decreases |r| - i
  {
    if r[i].kind.RuleRef? { FirstsBelowSame(g, h, rank, b, r, i + 1); }
  }

  lemma {:induction false} NullRestSame(g: Grammar, h: Grammar, r: Rule, i: nat)
    requires |g.nullable| == |g.rules| && WellFormedRule(r, |g.rules|) && i < |r|
    requires g.rules == h.rules && g.nullable == h.nullable
    ensures NullRest(g, r, i) <==> NullRest(h, r, i)
    decreases |r| - i
  {
    if r[i].kind.RuleRef? { NullRestSame(g, h, r, i + 1); }
  }

  // The bound exists exactly when the rules can be ranked.
  lemma WellFormedIffRanked(rules: seq<Rule>, nullable: seq<bool>)
    requires WellFormedRules(rules) && |nullable| == |rules| && NullClosed(Grammar(rules, nullable, []))
    ensures (exists weight :: WellFormed(Grammar(rules, nullable, weight))) <==>
            (exists rank :: |rank| == |rules| && RulesOutLeftRecursion(Grammar(rules, nullable, []), rank))
  {
    var g := Grammar(rules, nullable, []);
    if weight :| WellFormed(Grammar(rules, nullable, weight)) {
      var h := Grammar(rules, nullable, weight);
      forall k, i | 0 <= k < |rules| && AltStart(rules[k], i)
        ensures FirstsBelow(g, weight, weight[k], rules[k], i)
      {
        CostCovers(h, weight[k], rules[k], i);
        FirstsBelowSame(g, h, weight, weight[k], rules[k], i);
      }
      assert RulesOutLeftRecursion(g, weight);
    }
    if rank: seq<nat> :| |rank| == |rules| && RulesOutLeftRecursion(g, rank) {
      RankSuffices(g, rank);
      assert WellFormed(Grammar(rules, nullable, Weights(rules, rank)));
    }
  }

  // ---- left recursion as a cycle ----

  // rule v is referred to at r[i], or behind references to nullable rules
  predicate CanComeFirst(g: Grammar, r: Rule, i: nat, v: nat)
    requires |g.nullable| == |g.rules| && WellFormedRule(r, |g.rules|) && i < |r|
    decreases |r| - i
  {
    r[i].kind.RuleRef? && (r[i].value == v || (g.nullable[r[i].value] && CanComeFirst(g, r, i + 1, v)))
  }

  ghost predicate LeftCorner(g: Grammar, k: nat, v: nat)
    requires WellFormedRules(g.rules) && |g.nullable| == |g.rules| && k < |g.rules|
  {
    exists i :: AltStart(g.rules[k], i) && CanComeFirst(g, g.rules[k], i, v)
  }

  // each rule can come first in the one before it
  ghost predicate CornerPath(g: Grammar, p: seq<nat>)
    requires WellFormedRules(g.rules) && |g.nullable| == |g.rules|
  {
    (forall a :: 0 <= a < |p| ==> p[a] < |g.rules|) && forall a :: 0 <= a < |p| - 1 ==> LeftCorner(g, p[a], p[a + 1])
  }

  ghost predicate LeftRecursive(g: Grammar)
    requires WellFormedRules(g.rules) && |g.nullable| == |g.rules|
  {
    exists p :: |p| > 1 && CornerPath(g, p) && p[0] == p[|p| - 1]
  }

  lemma {:induction false} BelowIffCorners(g: Grammar, rank: seq<nat>, b: nat, r: Rule, i: nat)
    requires |g.nullable| == |g.rules| == |rank| && WellFormedRule(r, |g.rules|) && i < |r|
    ensures FirstsBelow(g, rank, b, r, i) <==>
            forall v :: 0 <= v < |rank| && CanComeFirst(g, r, i, v) ==> rank[v] < b
    decreases |r| - i
  {
    if r[i].kind.RuleRef? {
      assert CanComeFirst(g, r, i, r[i].value);
      if g.nullable[r[i].value] { BelowIffCorners(g, rank, b, r, i + 1); }
    }
  }

  lemma RankIffCorners(g: Grammar, rank: seq<nat>)
    requires WellFormedRules(g.rules) && |g.nullable| == |g.rules| == |rank|
    ensures RulesOutLeftRecursion(g, rank) <==>
            forall k, v :: 0 <= k < |rank| && 0 <= v < |rank| && LeftCorner(g, k, v) ==> rank[v] < rank[k]
  {
    forall k, i | 0 <= k < |rank| && AltStart(g.rules[k], i)
      ensures FirstsBelow(g, rank, rank[k], g.rules[k], i) <==>
              forall v :: 0 <= v < |rank| && CanComeFirst(g, g.rules[k], i, v) ==> rank[v] < rank[k]
    {
      BelowIffCorners(g, rank, rank[k], g.rules[k], i);
    }
    hide FirstsBelow, CanComeFirst;
  }

  lemma {:induction false} RankFalls(g: Grammar, rank: seq<nat>, p: seq<nat>)
    requires WellFormedRules(g.rules) && |g.nullable| == |g.rules| == |rank|
    requires RulesOutLeftRecursion(g, rank) && |p| > 1 && CornerPath(g, p)
    ensures rank[p[|p| - 1]] < rank[p[0]]
  {
    RankIffCorners(g, rank);
    assert LeftCorner(g, p[0], p[0 + 1]);
    if |p| > 2 { RankFalls(g, rank, p[1..]); }
  }

  // without a cycle no rule comes twice on a path, so paths are no longer than there are rules
  lemma PathsAreShort(g: Grammar, p: seq<nat>)
    requires WellFormedRules(g.rules) && |g.nullable| == |g.rules|
    requires !LeftRecursive(g) && CornerPath(g, p)
    ensures |p| <= |g.rules|
  {
    forall a, b | 0 <= a < b < |p| ensures p[a] != p[b] {
      var q := p[a..b + 1];
      forall c | 0 <= c < |q| - 1 ensures LeftCorner(g, q[c], q[c + 1]) {
        assert LeftCorner(g, p[a + c], p[a + c + 1]);
      }
      assert CornerPath(g, q);
    }
    Pigeonhole(p, |g.rules|);
  }

  lemma {:induction false} Pigeonhole(p: seq<nat>, n: nat)
    requires forall a :: 0 <= a < |p| ==> p[a] < n
    requires forall a, b :: 0 <= a < b < |p| ==> p[a] != p[b]
    ensures |p| <= n
  {
    if p != [] {
      assert p[0] < n;
      if a :| 0 <= a < |p| && p[a] == n - 1 {
        Pigeonhole(p[..a] + p[a + 1..], n - 1);
      } else {
        Pigeonhole(p, n - 1);
      }
    }
  }

  ghost predicate PathFrom(g: Grammar, k: nat, n: nat)
    requires WellFormedRules(g.rules) && |g.nullable| == |g.rules|
  {
    exists p :: |p| == n + 1 && p[0] == k && CornerPath(g, p)
  }

  // the length of the longest path from k that is no longer than n
  ghost function LongestFrom(g: Grammar, k: nat, n: nat): (m: nat)
    requires WellFormedRules(g.rules) && |g.nullable| == |g.rules| && k < |g.rules|
    ensures m <= n && PathFrom(g, k, m) && forall j :: m < j <= n ==> !PathFrom(g, k, j)
  {
    assert CornerPath(g, [k]) && PathFrom(g, k, 0);
    if PathFrom(g, k, n) then n else LongestFrom(g, k, n - 1)
  }

  lemma LongestIsRank(g: Grammar)
    requires WellFormedRules(g.rules) && |g.nullable| == |g.rules| && !LeftRecursive(g)
    ensures exists rank :: |rank| == |g.rules| && RulesOutLeftRecursion(g, rank)
  {
    var n := |g.rules|;
    var rank := seq(n, k requires 0 <= k < n => LongestFrom(g, k, n));
    forall k, v | 0 <= k < n && 0 <= v < n && LeftCorner(g, k, v) ensures rank[v] < rank[k] {
      LongerFrom(g, k, v, rank[v]);
    }
    RankIffCorners(g, rank);
  }

  lemma LongerFrom(g: Grammar, k: nat, v: nat, m: nat)
    requires WellFormedRules(g.rules) && |g.nullable| == |g.rules| && !LeftRecursive(g)
    requires k < |g.rules| && LeftCorner(g, k, v) && PathFrom(g, v, m)
    ensures m + 1 <= |g.rules| && PathFrom(g, k, m + 1)
  {
    var p :| |p| == m + 1 && p[0] == v && CornerPath(g, p);
    var q := [k] + p;
    assert forall a :: 0 < a < |q| ==> q[a] == p[a - 1];
    forall a | 0 <= a < |q| - 1 ensures LeftCorner(g, q[a], q[a + 1]) {
      if a > 0 { assert LeftCorner(g, p[a - 1], p[a - 1 + 1]); }
    }
    PathsAreShort(g, q);
  }

  // The engine's expansions are bounded exactly when no rule can come first in itself, through
  // however many rules and behind however many nullable ones.
  lemma WellFormedIffNoLeftRecursion(rules: seq<Rule>, nullable: seq<bool>)
    requires WellFormedRules(rules) && |nullable| == |rules| && NullClosed(Grammar(rules, nullable, []))
    ensures (exists weight :: WellFormed(Grammar(rules, nullable, weight))) <==>
            !LeftRecursive(Grammar(rules, nullable, []))
  {
    var g := Grammar(rules, nullable, []);
    WellFormedIffRanked(rules, nullable);
    hide WellFormed;
    if rank: seq<nat> :| |rank| == |rules| && RulesOutLeftRecursion(g, rank) {
      forall p: seq<nat> | |p| > 1 && CornerPath(g, p) ensures p[0] != p[|p| - 1] {
        RankFalls(g, rank, p);
      }
    }
    if !LeftRecursive(g) { LongestIsRank(g); }
  }
}
