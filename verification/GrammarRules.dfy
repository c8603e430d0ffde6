// Grammar rules as flat element arrays, and the language they stand for.
module GrammarRules {

  datatype Kind = End | Alt | RuleRef | Chr | ChrNot | RngUpper | ChrAlt

  datatype Elem = Elem(kind: Kind, value: nat)

  type Rule = seq<Elem>

  predicate Starts(e: Elem) { e.kind.RuleRef? || e.kind.Chr? || e.kind.ChrNot? }

  predicate EndOfSequence(e: Elem) { e.kind.End? || e.kind.Alt? }

  // range and alternative characters follow a character
  predicate InPlace(r: Rule, i: nat)
    requires i < |r|
  {
    && (r[i].kind.RngUpper? ==> i > 0 && (r[i - 1].kind.Chr? || r[i - 1].kind.ChrNot? || r[i - 1].kind.ChrAlt?))
    && (r[i].kind.ChrAlt? ==>
          i > 0 && (r[i - 1].kind.Chr? || r[i - 1].kind.ChrNot? || r[i - 1].kind.ChrAlt? || r[i - 1].kind.RngUpper?))
  }

  // A rule ends with its only End, refers to rules that exist, and has its elements in place.
  predicate WellFormedRule(r: Rule, n: nat) {
    && |r| > 0 && r[|r| - 1].kind.End?
    && (forall i :: 0 <= i < |r| - 1 ==> !r[i].kind.End?)
    && (forall i :: 0 <= i < |r| && r[i].kind.RuleRef? ==> r[i].value < n)
    && (forall i {:trigger InPlace(r, i)} :: 0 <= i < |r| ==> InPlace(r, i))
  }

  // ---- what an element array means ----

  datatype Range = Range(lower: nat, upper: nat)

  datatype Symbol = Class(negated: bool, ranges: seq<Range>) | Ref(rule: nat)

  predicate InRanges(rs: seq<Range>, c: nat) {
    exists i :: 0 <= i < |rs| && rs[i].lower <= c <= rs[i].upper
  }

  predicate Matches(s: Symbol, c: nat)
    requires s.Class?
  {
    InRanges(s.ranges, c) != s.negated
  }

  // a character or an alternative character stands at i
  predicate CharAt(r: Rule, i: nat) {
    i < |r| && (r[i].kind.Chr? || r[i].kind.ChrNot? || r[i].kind.ChrAlt?)
  }

  // the element after the character at i and its upper bound, if it has one
  function AfterChar(r: Rule, n: nat, i: nat): (j: nat)
    requires WellFormedRule(r, n) && CharAt(r, i)
    ensures i < j < |r| && !r[j].kind.RngUpper?
  {
    if r[i + 1].kind.RngUpper? then assert InPlace(r, i + 2); i + 2 else i + 1
  }

  function RangeAt(r: Rule, n: nat, i: nat): Range
    requires WellFormedRule(r, n) && CharAt(r, i)
  {
    if r[i + 1].kind.RngUpper? then Range(r[i].value, r[i + 1].value) else Range(r[i].value, r[i].value)
  }

  // the ranges of the class that starts at i, and the element after the class
  function ClassRanges(r: Rule, n: nat, i: nat): (rs: seq<Range>)
    requires WellFormedRule(r, n) && CharAt(r, i)
    decreases |r| - i
  {
    var j := AfterChar(r, n, i);
    [RangeAt(r, n, i)] + (if r[j].kind.ChrAlt? then ClassRanges(r, n, j) else [])
  }

  function ClassEnd(r: Rule, n: nat, i: nat): (j: nat)
    requires WellFormedRule(r, n) && CharAt(r, i)
    ensures i < j < |r| && (Starts(r[j]) || EndOfSequence(r[j]))
    decreases |r| - i
  {
    var j := AfterChar(r, n, i);
    assert InPlace(r, j);
    if r[j].kind.ChrAlt? then ClassEnd(r, n, j) else j
  }

  // i is where an element or the end of an alternate stands
  predicate Boundary(r: Rule, i: nat) {
    i < |r| && (Starts(r[i]) || EndOfSequence(r[i]))
  }

  lemma BoundaryAfter(r: Rule, n: nat, i: nat)
    requires WellFormedRule(r, n) && i < |r| - 1 && (r[i].kind.RuleRef? || r[i].kind.Alt?)
    ensures Boundary(r, i + 1)
  {
    assert InPlace(r, i + 1);
  }

  lemma BoundaryFirst(r: Rule, n: nat)
    requires WellFormedRule(r, n)
    ensures Boundary(r, 0)
  {
    assert InPlace(r, 0);
  }

  // the symbols from i to the end of its alternate
  function Symbols(r: Rule, n: nat, i: nat): seq<Symbol>
    requires WellFormedRule(r, n) && Boundary(r, i)
    decreases |r| - i
  {
    if EndOfSequence(r[i]) then []
    else if r[i].kind.RuleRef? then
      BoundaryAfter(r, n, i);
      [Ref(r[i].value)] + Symbols(r, n, i + 1)
    else [Class(r[i].kind.ChrNot?, ClassRanges(r, n, i))] + Symbols(r, n, ClassEnd(r, n, i))
  }

  // the end of the alternate that i is in
  function AltEnd(r: Rule, n: nat, i: nat): (j: nat)
    requires WellFormedRule(r, n) && i < |r|
    ensures i <= j < |r| && EndOfSequence(r[j])
    ensures forall k :: i <= k < j ==> !EndOfSequence(r[k])
    decreases |r| - i
  {
    if EndOfSequence(r[i]) then i else AltEnd(r, n, i + 1)
  }

  // the alternates from the one that starts at i on
  function Alternates(r: Rule, n: nat, i: nat): seq<seq<Symbol>>
    requires WellFormedRule(r, n) && Boundary(r, i)
    decreases |r| - i
  {
    var e := AltEnd(r, n, i);
    [Symbols(r, n, i)] +
      (if r[e].kind.Alt? then BoundaryAfter(r, n, e); Alternates(r, n, e + 1) else [])
  }

  lemma NextAlternate(r: Rule, n: nat, i: nat)
    requires WellFormedRule(r, n) && i < |r| && r[AltEnd(r, n, i)].kind.Alt?
    ensures Boundary(r, AltEnd(r, n, i) + 1)
  {
    BoundaryAfter(r, n, AltEnd(r, n, i));
  }

  lemma AlternatesStep(r: Rule, n: nat, i: nat)
    requires WellFormedRule(r, n) && Boundary(r, i)
    ensures var e := AltEnd(r, n, i);
            if r[e].kind.Alt? then
              Boundary(r, e + 1) && Alternates(r, n, i) == [Symbols(r, n, i)] + Alternates(r, n, e + 1)
            else Alternates(r, n, i) == [Symbols(r, n, i)] + []
  {
    var e := AltEnd(r, n, i);
    hide Symbols, AltEnd;
    if r[e].kind.Alt? { BoundaryAfter(r, n, e); }
  }

  // ---- the language of a sentential form: leftmost derivations ----

  predicate WellFormedRules(rules: seq<Rule>) {
    forall k :: 0 <= k < |rules| ==> WellFormedRule(rules[k], |rules|)
  }

  function Productions(rules: seq<Rule>, k: nat): seq<seq<Symbol>>
    requires WellFormedRules(rules) && k < |rules|
  {
    BoundaryFirst(rules[k], |rules|);
    Alternates(rules[k], |rules|, 0)
  }

  // form derives w by a leftmost derivation with at most n rule applications
  ghost predicate Derives(rules: seq<Rule>, form: seq<Symbol>, w: seq<nat>, n: nat)
    requires WellFormedRules(rules)
    decreases n, |form|
  {
    if form == [] then w == []
    else if form[0].Class? then w != [] && Matches(form[0], w[0]) && Derives(rules, form[1..], w[1..], n)
    else n > 0 && form[0].rule < |rules| &&
         exists k :: 0 <= k < |Productions(rules, form[0].rule)| &&
                     Derives(rules, Productions(rules, form[0].rule)[k] + form[1..], w, n - 1)
  }

  ghost predicate Generates(rules: seq<Rule>, form: seq<Symbol>, w: seq<nat>)
    requires WellFormedRules(rules)
  {
    exists n :: Derives(rules, form, w, n)
  }

  // a class in front consumes one matching character
  lemma GeneratesClass(rules: seq<Rule>, s: Symbol, rest: seq<Symbol>, w: seq<nat>)
    requires WellFormedRules(rules) && s.Class?
    ensures Generates(rules, [s] + rest, w) <==> w != [] && Matches(s, w[0]) && Generates(rules, rest, w[1..])
  {
    assert ([s] + rest)[1..] == rest;
    if Generates(rules, [s] + rest, w) {
      var n: nat :| Derives(rules, [s] + rest, w, n);
      assert Derives(rules, rest, w[1..], n);
    }
    if w != [] && Matches(s, w[0]) && Generates(rules, rest, w[1..]) {
      var n: nat :| Derives(rules, rest, w[1..], n);
      assert Derives(rules, [s] + rest, w, n);
    }
  }

  // one of the forms in ps, continued by rest, generates w
  ghost predicate SomeGenerates(rules: seq<Rule>, ps: seq<seq<Symbol>>, rest: seq<Symbol>, w: seq<nat>)
    requires WellFormedRules(rules)
  {
    exists k :: 0 <= k < |ps| && Generates(rules, ps[k] + rest, w)
  }

  lemma SomeGeneratesMore(rules: seq<Rule>, p: seq<Symbol>, ps: seq<seq<Symbol>>, rest: seq<Symbol>, w: seq<nat>)
    requires WellFormedRules(rules)
    ensures SomeGenerates(rules, [p] + ps, rest, w) <==>
            Generates(rules, p + rest, w) || SomeGenerates(rules, ps, rest, w)
  {
    hide Generates, WellFormedRules;
    var all := [p] + ps;
    assert all[0] == p;
    if k :| 0 <= k < |ps| && Generates(rules, ps[k] + rest, w) { assert all[k + 1] == ps[k]; }
    if k :| 0 <= k < |all| && Generates(rules, all[k] + rest, w) {
      if k > 0 { assert all[k] == ps[k - 1]; }
    }
  }

  // a rule in front is replaced by one of its productions
  lemma GeneratesRef(rules: seq<Rule>, v: nat, rest: seq<Symbol>, w: seq<nat>)
    requires WellFormedRules(rules) && v < |rules|
    ensures Generates(rules, [Ref(v)] + rest, w) <==> SomeGenerates(rules, Productions(rules, v), rest, w)
  {
    var ps := Productions(rules, v);
    assert ([Ref(v)] + rest)[1..] == rest;
    if Generates(rules, [Ref(v)] + rest, w) {
      var n: nat :| Derives(rules, [Ref(v)] + rest, w, n);
      var k :| 0 <= k < |ps| && Derives(rules, ps[k] + rest, w, n - 1);
      assert Generates(rules, ps[k] + rest, w);
    }
    if k :| 0 <= k < |ps| && Generates(rules, ps[k] + rest, w) {
      var n: nat :| Derives(rules, ps[k] + rest, w, n);
      assert Derives(rules, [Ref(v)] + rest, w, n + 1);
    }
  }
}
