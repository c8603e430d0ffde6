// The pushdown engine: expanding stacks to characters, accepting characters, rejecting candidates.
module GrammarEngine {
  import opened GrammarRules

  // a pointer to an element of a rule
  datatype Pos = Pos(rule: nat, idx: nat)

  // the top of a stack is its last element
  type Stack = seq<Pos>

  // nullable and weight rule out left recursion: along a nullable prefix of any alternate, a rule
  // outweighs every rule it refers to
  datatype Grammar = Grammar(rules: seq<Rule>, nullable: seq<bool>, weight: seq<nat>)

  function RuleOf(g: Grammar, p: Pos): Rule
    requires p.rule < |g.rules|
  {
    g.rules[p.rule]
  }

  // all elements from i to the end of the alternate are references to nullable rules
  predicate NullRest(g: Grammar, r: Rule, i: nat)
    requires |g.nullable| == |g.rules| && WellFormedRule(r, |g.rules|) && i < |r|
    decreases |r| - i
  {
    EndOfSequence(r[i]) || (r[i].kind.RuleRef? && g.nullable[r[i].value] && NullRest(g, r, i + 1))
  }

  // a bound on the expansions needed to get from i to a character or past the alternate
  function Cost(g: Grammar, r: Rule, i: nat): nat
    requires |g.nullable| == |g.rules| == |g.weight| && WellFormedRule(r, |g.rules|) && i < |r|
    decreases |r| - i
  {
    if !r[i].kind.RuleRef? then 0
    else 1 + g.weight[r[i].value] + (if g.nullable[r[i].value] then Cost(g, r, i + 1) else 0)
  }

  predicate AltStart(r: Rule, i: nat) { i < |r| && (i == 0 || r[i - 1].kind.Alt?) }

  ghost predicate WellFormed(g: Grammar) {
    && WellFormedRules(g.rules) && |g.nullable| == |g.rules| == |g.weight|
    && (forall k, i :: 0 <= k < |g.rules| && AltStart(g.rules[k], i) ==>
          Cost(g, g.rules[k], i) <= g.weight[k] && (NullRest(g, g.rules[k], i) ==> g.nullable[k]))
  }

  predicate ValidPos(g: Grammar, p: Pos) {
    p.rule < |g.rules| && p.idx < |g.rules[p.rule]| && Starts(g.rules[p.rule][p.idx])
  }

  predicate ValidStack(g: Grammar, st: Stack) {
    forall k :: 0 <= k < |st| ==> ValidPos(g, st[k])
  }

  function Top(st: Stack): Pos
    requires st != []
  {
    st[|st| - 1]
  }

  function Below(st: Stack): Stack
    requires st != []
  {
    st[..|st| - 1]
  }

  // an element position, left out when it is the end of its alternate
  function Push(g: Grammar, st: Stack, rule: nat, idx: nat): (st': Stack)
    requires WellFormed(g) && ValidStack(g, st) && rule < |g.rules| && Boundary(g.rules[rule], idx)
    ensures ValidStack(g, st')
  {
    if EndOfSequence(g.rules[rule][idx]) then st else st + [Pos(rule, idx)]
  }

  // ---- the sentential form of a stack ----

  function Form(g: Grammar, st: Stack): seq<Symbol>
    requires WellFormed(g) && ValidStack(g, st)
    decreases |st|
  {
    if st == [] then []
    else Symbols(RuleOf(g, Top(st)), |g.rules|, Top(st).idx) + Form(g, Below(st))
  }

  lemma PushForm(g: Grammar, st: Stack, rule: nat, idx: nat)
    requires WellFormed(g) && ValidStack(g, st) && rule < |g.rules| && Boundary(g.rules[rule], idx)
    ensures Form(g, Push(g, st, rule, idx)) == Symbols(g.rules[rule], |g.rules|, idx) + Form(g, st)
  {
    var st' := Push(g, st, rule, idx);
    if st' != st { assert Below(st') == st; }
  }

  // ---- expanding a stack ----

  // expansions that may still be needed to bring a character to the top
  function Measure(g: Grammar, st: Stack): nat
    requires WellFormed(g) && ValidStack(g, st)
    decreases |st|
  {
    if st == [] then 0
    else
      var r := RuleOf(g, Top(st));
      Cost(g, r, Top(st).idx) + (if NullRest(g, r, Top(st).idx) then Measure(g, Below(st)) else 0)
  }

  lemma PushMeasure(g: Grammar, st: Stack, rule: nat, idx: nat)
    requires WellFormed(g) && ValidStack(g, st) && rule < |g.rules| && Boundary(g.rules[rule], idx)
    ensures Measure(g, Push(g, st, rule, idx)) ==
            Cost(g, g.rules[rule], idx) + (if NullRest(g, g.rules[rule], idx) then Measure(g, st) else 0)
  {
    var st' := Push(g, st, rule, idx);
    if st' != st { assert Below(st') == st; }
  }

  // a rule reference is on top
  predicate OnRef(g: Grammar, st: Stack) {
    st != [] && ValidStack(g, st) && RuleOf(g, Top(st))[Top(st).idx].kind.RuleRef?
  }

  // the rule that the reference on top names
  function RefRule(g: Grammar, st: Stack): (v: nat)
    requires WellFormed(g) && OnRef(g, st)
    ensures v < |g.rules|
  {
    RuleOf(g, Top(st))[Top(st).idx].value
  }

  // the stack with its top reference replaced by what follows it and an alternate of its rule
  function Expanded(g: Grammar, st: Stack, sub: nat): (st': Stack)
    requires WellFormed(g) && OnRef(g, st)
    requires Boundary(g.rules[RefRule(g, st)], sub)
    ensures ValidStack(g, st')
  {
    var p := Top(st);
    BoundaryAfter(RuleOf(g, p), |g.rules|, p.idx);
    Push(g, Push(g, Below(st), p.rule, p.idx + 1), RefRule(g, st), sub)
  }

  lemma RefMeasure(g: Grammar, st: Stack)
    requires WellFormed(g) && OnRef(g, st)
    ensures var v := RefRule(g, st); var r := RuleOf(g, Top(st)); var i := Top(st).idx + 1;
            Measure(g, st) == 1 + g.weight[v] +
              (if g.nullable[v] then Cost(g, r, i) + (if NullRest(g, r, i) then Measure(g, Below(st)) else 0) else 0)
  {
  }

  lemma ExpandedSmaller(g: Grammar, st: Stack, sub: nat)
    requires WellFormed(g) && OnRef(g, st)
    requires Boundary(g.rules[RefRule(g, st)], sub) && AltStart(g.rules[RefRule(g, st)], sub)
    ensures Measure(g, Expanded(g, st, sub)) < Measure(g, st)
  {
    hide Measure, NullRest, Cost;
    var p := Top(st);
    var v := RefRule(g, st);
    BoundaryAfter(RuleOf(g, p), |g.rules|, p.idx);
    PushMeasure(g, Below(st), p.rule, p.idx + 1);
    PushMeasure(g, Push(g, Below(st), p.rule, p.idx + 1), v, sub);
    RefMeasure(g, st);
    assert Cost(g, g.rules[v], sub) <= g.weight[v];
  }

  // nothing left to expand: the stack is empty or has a character on top
  predicate Settled(g: Grammar, st: Stack) {
    ValidStack(g, st) && (st == [] || !RuleOf(g, Top(st))[Top(st).idx].kind.RuleRef?)
  }

  predicate AllSettled(g: Grammar, sts: seq<Stack>) {
    forall k :: 0 <= k < |sts| ==> Settled(g, sts[k])
  }

  // all settled stacks that st expands to
  function Advance(g: Grammar, st: Stack): (sts: seq<Stack>)
    requires WellFormed(g) && ValidStack(g, st)
    ensures sts != [] && AllSettled(g, sts)
    decreases Measure(g, st), 1
  {
    if st == [] then [[]]
    else if OnRef(g, st) then
      var v := RefRule(g, st);
      BoundaryFirst(g.rules[v], |g.rules|);
      AdvanceFrom(g, st, 0)
    else [st]
  }

  // the alternates of the rule on top, from the one that starts at sub on
  function AdvanceFrom(g: Grammar, st: Stack, sub: nat): (sts: seq<Stack>)
    requires WellFormed(g) && OnRef(g, st)
    requires Boundary(g.rules[RefRule(g, st)], sub) && AltStart(g.rules[RefRule(g, st)], sub)
    ensures sts != [] && AllSettled(g, sts)
    decreases Measure(g, st), 0, |g.rules[RefRule(g, st)]| - sub
  {
    var r := g.rules[RefRule(g, st)];
    var e := AltEnd(r, |g.rules|, sub);
    ExpandedSmaller(g, st, sub);
    Advance(g, Expanded(g, st, sub)) +
      (if r[e].kind.Alt? then BoundaryAfter(r, |g.rules|, e); AdvanceFrom(g, st, e + 1) else [])
  }

  // ---- the language of a set of stacks ----

  ghost predicate Lang(g: Grammar, sts: seq<Stack>, w: seq<nat>)
    requires WellFormed(g) && AllSettled(g, sts)
  {
    exists k :: 0 <= k < |sts| && Generates(g.rules, Form(g, sts[k]), w)
  }

  lemma LangConcat(g: Grammar, a: seq<Stack>, b: seq<Stack>, w: seq<nat>)
    requires WellFormed(g) && AllSettled(g, a) && AllSettled(g, b)
    ensures AllSettled(g, a + b) && (Lang(g, a + b, w) <==> Lang(g, a, w) || Lang(g, b, w))
  {
    assert WellFormedRules(g.rules);
    hide Generates, WellFormed, WellFormedRules, Form;
    if k :| 0 <= k < |a| && Generates(g.rules, Form(g, a[k]), w) { assert (a + b)[k] == a[k]; }
    if k :| 0 <= k < |b| && Generates(g.rules, Form(g, b[k]), w) { assert (a + b)[|a| + k] == b[k]; }
  }

  // what follows the reference on top of the stack
  function RestForm(g: Grammar, st: Stack): seq<Symbol>
    requires WellFormed(g) && OnRef(g, st)
  {
    BoundaryAfter(RuleOf(g, Top(st)), |g.rules|, Top(st).idx);
    Symbols(RuleOf(g, Top(st)), |g.rules|, Top(st).idx + 1) + Form(g, Below(st))
  }

  lemma RefForm(g: Grammar, st: Stack)
    requires WellFormed(g) && OnRef(g, st)
    ensures Form(g, st) == [Ref(RefRule(g, st))] + RestForm(g, st)
  {
  }

  lemma ExpandedForm(g: Grammar, st: Stack, sub: nat)
    requires WellFormed(g) && OnRef(g, st)
    requires Boundary(g.rules[RefRule(g, st)], sub)
    ensures Form(g, Expanded(g, st, sub)) == Symbols(g.rules[RefRule(g, st)], |g.rules|, sub) + RestForm(g, st)
  {
    var p := Top(st);
    BoundaryAfter(RuleOf(g, p), |g.rules|, p.idx);
    PushForm(g, Below(st), p.rule, p.idx + 1);
    PushForm(g, Push(g, Below(st), p.rule, p.idx + 1), RefRule(g, st), sub);
  }

  // Expanding a stack keeps its language.
  lemma {:induction false} AdvanceLanguage(g: Grammar, st: Stack, w: seq<nat>)
    requires WellFormed(g) && ValidStack(g, st)
    ensures Lang(g, Advance(g, st), w) <==> Generates(g.rules, Form(g, st), w)
    decreases Measure(g, st), 1
  {
    if OnRef(g, st) {
      var v := RefRule(g, st);
      BoundaryFirst(g.rules[v], |g.rules|);
      AdvanceFromLanguage(g, st, 0, w);
      RefForm(g, st);
      GeneratesRef(g.rules, v, RestForm(g, st), w);
    } else {
      SettledAlone(g, st, w);
    }
  }

  lemma SettledAlone(g: Grammar, st: Stack, w: seq<nat>)
    requires WellFormed(g) && Settled(g, st)
    ensures Advance(g, st) == [st] && (Lang(g, [st], w) <==> Generates(g.rules, Form(g, st), w))
  {
    assert WellFormedRules(g.rules);
    hide Generates, Form;
    assert [st][0] == st;
  }

  lemma NextAltStart(r: Rule, n: nat, i: nat)
    requires WellFormedRule(r, n) && i < |r| && r[AltEnd(r, n, i)].kind.Alt?
    ensures Boundary(r, AltEnd(r, n, i) + 1) && AltStart(r, AltEnd(r, n, i) + 1)
  {
    NextAlternate(r, n, i);
  }

  lemma RefFacts(g: Grammar, st: Stack, sub: nat)
    requires WellFormed(g) && OnRef(g, st)
    requires Boundary(g.rules[RefRule(g, st)], sub)
    ensures ValidStack(g, st) && WellFormedRules(g.rules) && WellFormedRule(g.rules[RefRule(g, st)], |g.rules|)
    ensures sub < |g.rules[RefRule(g, st)]|
  {
  }

  // the first alternate and the rest
  lemma AdvanceFromStep(g: Grammar, st: Stack, sub: nat)
    requires WellFormed(g) && OnRef(g, st)
    requires Boundary(g.rules[RefRule(g, st)], sub) && AltStart(g.rules[RefRule(g, st)], sub)
    ensures var r := g.rules[RefRule(g, st)]; var e := AltEnd(r, |g.rules|, sub);
            if r[e].kind.Alt? then
              Boundary(r, e + 1) && AltStart(r, e + 1) &&
              AdvanceFrom(g, st, sub) == Advance(g, Expanded(g, st, sub)) + AdvanceFrom(g, st, e + 1)
            else AdvanceFrom(g, st, sub) == Advance(g, Expanded(g, st, sub)) + []
  {
    hide WellFormed, OnRef, RefRule, Advance, Measure, Expanded, AllSettled, AltEnd, WellFormedRules,
         WellFormedRule, ValidStack, Boundary, AltStart, EndOfSequence;
    RefFacts(g, st, sub);
    var r := g.rules[RefRule(g, st)];
    if r[AltEnd(r, |g.rules|, sub)].kind.Alt? { NextAltStart(r, |g.rules|, sub); }
  }

  lemma {:induction false} AdvanceFromLanguage(g: Grammar, st: Stack, sub: nat, w: seq<nat>)
    requires WellFormed(g) && OnRef(g, st)
    requires Boundary(g.rules[RefRule(g, st)], sub) && AltStart(g.rules[RefRule(g, st)], sub)
    ensures Lang(g, AdvanceFrom(g, st, sub), w) <==>
            SomeGenerates(g.rules, Alternates(g.rules[RefRule(g, st)], |g.rules|, sub), RestForm(g, st), w)
    decreases Measure(g, st), 0, |g.rules[RefRule(g, st)]| - sub
  {
    hide WellFormed, WellFormedRules, WellFormedRule, Generates, SomeGenerates, Lang, Advance, AdvanceFrom,
         Alternates, Form, Symbols, RestForm, Measure, Expanded, OnRef, RefRule, AllSettled, AltEnd, AltStart,
         Boundary, ValidStack, EndOfSequence;
    RefFacts(g, st, sub);
    var r, n := g.rules[RefRule(g, st)], |g.rules|;
    var e := AltEnd(r, n, sub);
    AdvanceFromStep(g, st, sub);
    AlternatesStep(r, n, sub);
    ExpandedSmaller(g, st, sub);
    AdvanceLanguage(g, Expanded(g, st, sub), w);
    ExpandedForm(g, st, sub);
    if r[e].kind.Alt? {
      AdvanceFromLanguage(g, st, e + 1, w);
      LangConcat(g, Advance(g, Expanded(g, st, sub)), AdvanceFrom(g, st, e + 1), w);
      SomeGeneratesMore(g.rules, Symbols(r, n, sub), Alternates(r, n, e + 1), RestForm(g, st), w);
    } else {
      NothingMore(g, RestForm(g, st), w);
      LangConcat(g, Advance(g, Expanded(g, st, sub)), [], w);
      SomeGeneratesMore(g.rules, Symbols(r, n, sub), [], RestForm(g, st), w);
    }
  }

  lemma NothingMore(g: Grammar, rest: seq<Symbol>, w: seq<nat>)
    requires WellFormed(g)
    ensures AllSettled(g, []) && !Lang(g, [], w) && !SomeGenerates(g.rules, [], rest, w)
  {
  }
}
