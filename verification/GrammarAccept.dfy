// Accepting characters: the engine computes left derivatives.
module GrammarAccept {
  import opened GrammarRules
  import opened GrammarEngine

  // the character class on top of a settled stack
  function TopClass(g: Grammar, st: Stack): (s: Symbol)
    requires WellFormed(g) && Settled(g, st) && st != []
    ensures s.Class?
  {
    var r := RuleOf(g, Top(st));
    Class(r[Top(st).idx].kind.ChrNot?, ClassRanges(r, |g.rules|, Top(st).idx))
  }

  // the stack after the class on top has been matched
  function AfterClass(g: Grammar, st: Stack): (st': Stack)
    requires WellFormed(g) && Settled(g, st) && st != []
    ensures ValidStack(g, st')
  {
    Push(g, Below(st), Top(st).rule, ClassEnd(RuleOf(g, Top(st)), |g.rules|, Top(st).idx))
  }

  lemma SettledForm(g: Grammar, st: Stack)
    requires WellFormed(g) && Settled(g, st) && st != []
    ensures Form(g, st) == [TopClass(g, st)] + Form(g, AfterClass(g, st))
  {
    PushForm(g, Below(st), Top(st).rule, ClassEnd(RuleOf(g, Top(st)), |g.rules|, Top(st).idx));
  }

  function AcceptOne(g: Grammar, st: Stack, c: nat): (r: seq<Stack>)
    requires WellFormed(g) && Settled(g, st)
    ensures AllSettled(g, r)
  {
    if st != [] && Matches(TopClass(g, st), c) then Advance(g, AfterClass(g, st)) else []
  }

  function Accept(g: Grammar, sts: seq<Stack>, c: nat): (r: seq<Stack>)
    requires WellFormed(g) && AllSettled(g, sts)
    ensures AllSettled(g, r)
  {
    if sts == [] then [] else AcceptOne(g, sts[0], c) + Accept(g, sts[1..], c)
  }

  lemma AcceptOneDerivative(g: Grammar, st: Stack, c: nat, w: seq<nat>)
    requires WellFormed(g) && Settled(g, st)
    ensures Lang(g, AcceptOne(g, st, c), w) <==> Generates(g.rules, Form(g, st), [c] + w)
  {
    assert WellFormedRules(g.rules);
    hide WellFormed, Generates, Advance, Lang, Settled;
    if st == [] {
      EmptyGenerates(g.rules, [c] + w);
      NothingMore(g, [], w);
    } else {
      SettledForm(g, st);
      GeneratesClass(g.rules, TopClass(g, st), Form(g, AfterClass(g, st)), [c] + w);
      assert ([c] + w)[1..] == w;
      if Matches(TopClass(g, st), c) {
        AdvanceLanguage(g, AfterClass(g, st), w);
      } else {
        NothingMore(g, [], w);
      }
    }
  }

  lemma EmptyGenerates(rules: seq<Rule>, w: seq<nat>)
    requires WellFormedRules(rules)
    ensures Generates(rules, [], w) <==> w == []
  {
    if w == [] { assert Derives(rules, [], w, 0); }
  }

  // Accepting c turns the language of the stacks into its left derivative by c.
  lemma {:induction false} AcceptDerivative(g: Grammar, sts: seq<Stack>, c: nat, w: seq<nat>)
    requires WellFormed(g) && AllSettled(g, sts)
    ensures Lang(g, Accept(g, sts, c), w) <==> Lang(g, sts, [c] + w)
  {
    assert WellFormedRules(g.rules);
    hide WellFormed, Generates, AcceptOne, Form;
    if sts != [] {
      AcceptOneDerivative(g, sts[0], c, w);
      AcceptDerivative(g, sts[1..], c, w);
      LangConcat(g, AcceptOne(g, sts[0], c), Accept(g, sts[1..], c), w);
      LangConcat(g, [sts[0]], sts[1..], [c] + w);
      assert [sts[0]] + sts[1..] == sts;
      assert [sts[0]][0] == sts[0];
    }
  }

  // accepting a whole string
  function AcceptAll(g: Grammar, sts: seq<Stack>, cs: seq<nat>): (r: seq<Stack>)
    requires WellFormed(g) && AllSettled(g, sts)
    ensures AllSettled(g, r)
    decreases |cs|
  {
    if cs == [] then sts else AcceptAll(g, Accept(g, sts, cs[0]), cs[1..])
  }

  // After cs, the stacks generate exactly the words that continue cs.
  lemma {:induction false} AcceptAllDerivative(g: Grammar, sts: seq<Stack>, cs: seq<nat>, w: seq<nat>)
    requires WellFormed(g) && AllSettled(g, sts)
    ensures Lang(g, AcceptAll(g, sts, cs), w) <==> Lang(g, sts, cs + w)
    decreases |cs|
  {
    hide WellFormed, Lang, Accept;
    if cs == [] {
      assert cs + w == w;
    } else {
      AcceptAllDerivative(g, Accept(g, sts, cs[0]), cs[1..], w);
      AcceptDerivative(g, sts, cs[0], cs[1..] + w);
      assert [cs[0]] + (cs[1..] + w) == cs + w;
    }
  }

  lemma {:induction false} AcceptConcat(g: Grammar, a: seq<Stack>, b: seq<Stack>, c: nat)
    requires WellFormed(g) && AllSettled(g, a) && AllSettled(g, b)
    ensures AllSettled(g, a + b) && Accept(g, a + b, c) == Accept(g, a, c) + Accept(g, b, c)
  {
    hide WellFormed, Settled, AcceptOne;
    if a == [] {
      assert a + b == b;
    } else {
      AcceptConcat(g, a[1..], b, c);
      assert (a + b)[1..] == a[1..] + b;
      assert (a + b)[0] == a[0];
    }
  }

  // Stacks are followed independently of each other.
  lemma {:induction false} AcceptAllConcat(g: Grammar, a: seq<Stack>, b: seq<Stack>, cs: seq<nat>)
    requires WellFormed(g) && AllSettled(g, a) && AllSettled(g, b)
    ensures AllSettled(g, a + b) && AcceptAll(g, a + b, cs) == AcceptAll(g, a, cs) + AcceptAll(g, b, cs)
    decreases |cs|
  {
    hide WellFormed, Settled;
    if cs != [] {
      AcceptConcat(g, a, b, cs[0]);
      hide Accept;
      AcceptAllConcat(g, Accept(g, a, cs[0]), Accept(g, b, cs[0]), cs[1..]);
    }
  }

  // ---- from the start rule ----

  // the stacks for the alternates of the start rule, from the one that starts at sub on
  function Initial(g: Grammar, start: nat, sub: nat): (sts: seq<Stack>)
    requires WellFormed(g) && start < |g.rules| && Boundary(g.rules[start], sub)
    ensures AllSettled(g, sts)
    decreases |g.rules[start]| - sub
  {
    var r := g.rules[start];
    var e := AltEnd(r, |g.rules|, sub);
    Advance(g, Push(g, [], start, sub)) +
      (if r[e].kind.Alt? then BoundaryAfter(r, |g.rules|, e); Initial(g, start, e + 1) else [])
  }

  lemma StartFacts(g: Grammar, start: nat, pos: nat)
    requires WellFormed(g) && start < |g.rules| && Boundary(g.rules[start], pos)
    ensures WellFormedRules(g.rules) && WellFormedRule(g.rules[start], |g.rules|) && pos < |g.rules[start]|
  {
  }

  lemma InitialStep(g: Grammar, start: nat, sub: nat)
    requires WellFormed(g) && start < |g.rules| && Boundary(g.rules[start], sub)
    ensures var r := g.rules[start]; var e := AltEnd(r, |g.rules|, sub);
            if r[e].kind.Alt? then
              Boundary(r, e + 1) &&
              Initial(g, start, sub) == Advance(g, Push(g, [], start, sub)) + Initial(g, start, e + 1)
            else Initial(g, start, sub) == Advance(g, Push(g, [], start, sub)) + []
  {
    hide WellFormed, WellFormedRules, WellFormedRule, Advance, AllSettled, Push, ValidStack, AltEnd, Boundary,
         EndOfSequence;
    StartFacts(g, start, sub);
    var r := g.rules[start];
    if r[AltEnd(r, |g.rules|, sub)].kind.Alt? { NextAlternate(r, |g.rules|, sub); }
  }

  lemma {:induction false} InitialLanguage(g: Grammar, start: nat, sub: nat, w: seq<nat>)
    requires WellFormed(g) && start < |g.rules| && Boundary(g.rules[start], sub)
    ensures Lang(g, Initial(g, start, sub), w) <==>
            SomeGenerates(g.rules, Alternates(g.rules[start], |g.rules|, sub), [], w)
    decreases |g.rules[start]| - sub
  {
    hide WellFormed, WellFormedRules, WellFormedRule, Generates, SomeGenerates, Lang, Advance, Initial,
         Alternates, Form, Symbols, AllSettled, Push, AltEnd, Boundary, EndOfSequence;
    StartFacts(g, start, sub);
    var r, n := g.rules[start], |g.rules|;
    var e := AltEnd(r, n, sub);
    InitialStep(g, start, sub);
    AlternatesStep(r, n, sub);
    AdvanceLanguage(g, Push(g, [], start, sub), w);
    PushForm(g, [], start, sub);
    EmptyForm(g);
    if r[e].kind.Alt? {
      InitialLanguage(g, start, e + 1, w);
      LangConcat(g, Advance(g, Push(g, [], start, sub)), Initial(g, start, e + 1), w);
      SomeGeneratesMore(g.rules, Symbols(r, n, sub), Alternates(r, n, e + 1), [], w);
    } else {
      NothingMore(g, [], w);
      LangConcat(g, Advance(g, Push(g, [], start, sub)), [], w);
      SomeGeneratesMore(g.rules, Symbols(r, n, sub), [], [], w);
    }
  }

  lemma EmptyForm(g: Grammar)
    requires WellFormed(g)
    ensures Form(g, []) == []
  {
  }

  // Once the text cs has been accepted, the stacks generate exactly what may follow cs in a
  // sentence of the start rule.
  lemma EngineFollowsGrammar(g: Grammar, start: nat, cs: seq<nat>, w: seq<nat>)
    requires WellFormed(g) && start < |g.rules| && Boundary(g.rules[start], 0)
    ensures Lang(g, AcceptAll(g, Initial(g, start, 0), cs), w) <==> Generates(g.rules, [Ref(start)], cs + w)
  {
    assert WellFormedRules(g.rules);
    hide WellFormed, Generates, Lang, AcceptAll, Initial, Alternates;
    AcceptAllDerivative(g, Initial(g, start, 0), cs, w);
    InitialLanguage(g, start, 0, cs + w);
    GeneratesRef(g.rules, start, [], cs + w);
    assert [Ref(start)] + [] == [Ref(start)];
  }

  // An empty stack says that the text so far is a sentence.
  lemma EmptyStackIsComplete(g: Grammar, sts: seq<Stack>)
    requires WellFormed(g) && AllSettled(g, sts)
    ensures [] in sts <==> Lang(g, sts, [])
  {
    assert WellFormedRules(g.rules);
    hide WellFormed, Generates, Advance;
    EmptyForm(g);
    EmptyGenerates(g.rules, []);
    forall k | 0 <= k < |sts| && sts[k] != []
      ensures !Generates(g.rules, Form(g, sts[k]), [])
    {
      SettledForm(g, sts[k]);
      GeneratesClass(g.rules, TopClass(g, sts[k]), Form(g, AfterClass(g, sts[k])), []);
    }
  }
}
