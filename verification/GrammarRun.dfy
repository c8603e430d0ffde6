// The engine as it runs: loops over elements, alternates, stacks and candidates.
module GrammarRun {
  import opened Bytes
  import opened GrammarRules
  import opened GrammarEngine
  import opened GrammarAccept
  import opened GrammarReject

  method MatchChar(r: Rule, ghost n: nat, i: nat, chr: nat) returns (ok: bool, after: nat)
    requires WellFormedRule(r, n) && i < |r| && (r[i].kind.Chr? || r[i].kind.ChrNot?)
    ensures ok == Matches(Class(r[i].kind.ChrNot?, ClassRanges(r, n, i)), chr)
    ensures after == ClassEnd(r, n, i)
  {
    hide WellFormedRule, ClassRanges, ClassEnd, InRanges;
    var found, positive, pos, more := false, r[i].kind.Chr?, i, true;
    while more
      invariant i <= pos < |r| && (if more then CharAt(r, pos) else pos == ClassEnd(r, n, i))
      invariant more ==> ClassEnd(r, n, pos) == ClassEnd(r, n, i)
      invariant InRanges(ClassRanges(r, n, i), chr) <==> found || (more && InRanges(ClassRanges(r, n, pos), chr))
      decreases more, |r| - pos
    {
      InFirstRange(r, n, pos, chr);
      if r[pos + 1].kind.RngUpper? {
        found := found || r[pos].value <= chr <= r[pos + 1].value;
        pos := pos + 2;
      } else {
        found := found || r[pos].value == chr;
        pos := pos + 1;
      }
      more := r[pos].kind.ChrAlt?;
    }
    ok := found == positive;
    after := pos;
  }

  // the character at k, or the range that it begins, contains c
  predicate HasChar(r: Rule, k: nat, c: nat)
    requires k + 1 < |r|
  {
    if r[k + 1].kind.RngUpper? then r[k].value <= c <= r[k + 1].value else r[k].value == c
  }

  // A class goes on for as long as upper bounds and alternative characters follow, and it contains what
  // any of its characters and ranges contains.
  lemma {:induction false} ClassContains(r: Rule, n: nat, i: nat, c: nat)
    requires WellFormedRule(r, n) && CharAt(r, i)
    ensures var e := ClassEnd(r, n, i);
            && i < e < |r| && !r[e].kind.RngUpper? && !r[e].kind.ChrAlt?
            && (forall k :: i < k < e ==> r[k].kind.RngUpper? || r[k].kind.ChrAlt?)
            && (InRanges(ClassRanges(r, n, i), c) <==>
                  exists k :: i <= k < e && !r[k].kind.RngUpper? && k + 1 < |r| && HasChar(r, k, c))
    decreases |r| - i
  {
    InFirstRange(r, n, i, c);
    var j := AfterChar(r, n, i);
    assert i < j;
    hide WellFormedRule, InRanges, ClassRanges;
    if r[j].kind.ChrAlt? { ClassContains(r, n, j, c); }
  }

  lemma InFirstRange(r: Rule, n: nat, i: nat, chr: nat)
    requires WellFormedRule(r, n) && CharAt(r, i)
    ensures i + 1 < |r| && AfterChar(r, n, i) < |r|
    ensures var j := AfterChar(r, n, i); ClassEnd(r, n, i) == if r[j].kind.ChrAlt? then ClassEnd(r, n, j) else j
    ensures var f, j := RangeAt(r, n, i), AfterChar(r, n, i);
            InRanges(ClassRanges(r, n, i), chr) <==>
            f.lower <= chr <= f.upper || (r[j].kind.ChrAlt? && InRanges(ClassRanges(r, n, j), chr))
  {
    var f, j := RangeAt(r, n, i), AfterChar(r, n, i);
    var rest := if r[j].kind.ChrAlt? then ClassRanges(r, n, j) else [];
    var all := ClassRanges(r, n, i);
    assert all == [f] + rest;
    if k :| 0 <= k < |rest| && rest[k].lower <= chr <= rest[k].upper { assert all[k + 1] == rest[k]; }
    if k :| 0 <= k < |all| && all[k].lower <= chr <= all[k].upper {
      if k > 0 { assert all[k] == rest[k - 1]; }
    }
    assert all[0] == f;
  }

  method MatchPartialChar(r: Rule, ghost n: nat, i: nat, p: Partial) returns (ok: bool)
    requires WellFormedRule(r, n) && i < |r| && (r[i].kind.Chr? || r[i].kind.ChrNot?)
    ensures ok == MatchPartial(Class(r[i].kind.ChrNot?, ClassRanges(r, n, i)), p)
  {
    var positive := r[i].kind.Chr?;
    if p.remain < 0 || (p.remain == 1 && p.value < 2) { return false; }
    var low, high := PartialLow(p), PartialHigh(p);
    hide PartialLow, PartialHigh;
    var pos, more := i, true;
    while more
      invariant i <= pos < |r| && (more ==> CharAt(r, pos))
      invariant RangesMeet(ClassRanges(r, n, i), low, high) <==> more && RangesMeet(ClassRanges(r, n, pos), low, high)
      decreases more, |r| - pos
    {
      hide WellFormedRule;
      FirstRangeMeets(r, n, pos, low, high);
      if r[pos + 1].kind.RngUpper? {
        if r[pos].value <= high && low <= r[pos + 1].value { return positive; }
        pos := pos + 2;
      } else {
        if low <= r[pos].value <= high { return positive; }
        pos := pos + 1;
      }
      more := r[pos].kind.ChrAlt?;
    }
    ok := !positive;
  }

  lemma FirstRangeMeets(r: Rule, n: nat, i: nat, low: int, high: int)
    requires WellFormedRule(r, n) && CharAt(r, i)
    ensures i + 1 < |r| && AfterChar(r, n, i) < |r|
    ensures var f, j := RangeAt(r, n, i), AfterChar(r, n, i);
            RangesMeet(ClassRanges(r, n, i), low, high) <==>
            (f.lower <= high && low <= f.upper) || (r[j].kind.ChrAlt? && RangesMeet(ClassRanges(r, n, j), low, high))
  {
    var f, j := RangeAt(r, n, i), AfterChar(r, n, i);
    var rest := if r[j].kind.ChrAlt? then ClassRanges(r, n, j) else [];
    var all := ClassRanges(r, n, i);
    assert all == [f] + rest;
    if k :| 0 <= k < |rest| && rest[k].lower <= high && low <= rest[k].upper { assert all[k + 1] == rest[k]; }
    if k :| 0 <= k < |all| && all[k].lower <= high && low <= all[k].upper {
      if k > 0 { assert all[k] == rest[k - 1]; }
    }
    assert all[0] == f;
  }

  lemma Regroup<T>(a: seq<T>, b: seq<T>, c: seq<T>)
    ensures a + (b + c) == a + b + c && a + (b + []) == a + b && a + b + [] == a + b
  {
    assert b + [] == b;
  }

  method ScanAlternate(r: Rule, ghost n: nat, from: nat) returns (end: nat)
    requires WellFormedRule(r, n) && from < |r|
    ensures end == AltEnd(r, n, from)
  {
    end := from;
    while !r[end].kind.End? && !r[end].kind.Alt?
      invariant from <= end < |r| && AltEnd(r, n, from) == AltEnd(r, n, end)
      decreases |r| - end
    {
      end := end + 1;
    }
  }

  // appends the settled stacks that st expands to
  method AdvanceStack(g: Grammar, st: Stack, newStacks: seq<Stack>) returns (out: seq<Stack>)
    requires WellFormed(g) && ValidStack(g, st)
    ensures out == newStacks + Advance(g, st)
    decreases Measure(g, st), 2
  {
    if st == [] { return newStacks + [[]]; }
    var pos := st[|st| - 1];
    if g.rules[pos.rule][pos.idx].kind.RuleRef? {
      assert OnRef(g, st);
      out := ExpandTop(g, st, newStacks);
    } else {
      out := newStacks + [st];
    }
  }

  method ExpandTop(g: Grammar, st: Stack, newStacks: seq<Stack>) returns (out: seq<Stack>)
    requires WellFormed(g) && OnRef(g, st)
    ensures out == newStacks + Advance(g, st)
    decreases Measure(g, st), 1
  {
    ExpandsFromFirst(g, st);
    var rule := g.rules[RefRule(g, st)];
    assert ValidStack(g, st) && |rule| > 0;
    hide Advance, AdvanceFrom, Measure, WellFormed, AltStart, OnRef, RefRule, WellFormedRule, Boundary, AllSettled;
    out := newStacks;
    var sub: nat, more := 0, true;
    while more
      invariant more ==> sub < |rule| && Boundary(rule, sub) && AltStart(rule, sub)
      invariant newStacks + Advance(g, st) == if more then out + AdvanceFrom(g, st, sub) else out
      decreases more, |rule| - sub
    {
      out, more, sub := ExpandAlternate(g, st, sub, out);
    }
  }

  // expands the alternate that starts at sub; next is where another one starts, if there is more
  method ExpandAlternate(g: Grammar, st: Stack, sub: nat, newStacks: seq<Stack>)
    returns (out: seq<Stack>, more: bool, next: nat)
    requires WellFormed(g) && OnRef(g, st)
    requires Boundary(g.rules[RefRule(g, st)], sub) && AltStart(g.rules[RefRule(g, st)], sub)
    ensures var r := g.rules[RefRule(g, st)];
            more ==> sub < next < |r| && Boundary(r, next) && AltStart(r, next)
    ensures newStacks + AdvanceFrom(g, st, sub) == if more then out + AdvanceFrom(g, st, next) else out
    decreases Measure(g, st), 0
  {
    hide Advance, AdvanceFrom, Measure, AltEnd, WellFormed, AltStart, OnRef, RefRule, Expanded, WellFormedRule,
         AllSettled, Boundary, ValidStack, EndOfSequence;
    RefFacts(g, st, sub);
    var rule := g.rules[RefRule(g, st)];
    ExpandedFirst(g, st, sub, newStacks);
    ExpandedSmaller(g, st, sub);
    var newStack := ReplaceTop(g, st, sub);
    out := AdvanceStack(g, newStack, newStacks);
    var end := ScanAlternate(rule, |g.rules|, sub);
    more := rule[end].kind.Alt?;
    next := end + 1;
  }

  // newStacks with the first alternate's stacks behind it, and then those of the rest
  lemma ExpandedFirst(g: Grammar, st: Stack, sub: nat, newStacks: seq<Stack>)
    requires WellFormed(g) && OnRef(g, st)
    requires Boundary(g.rules[RefRule(g, st)], sub) && AltStart(g.rules[RefRule(g, st)], sub)
    ensures var r := g.rules[RefRule(g, st)];
            var e := AltEnd(r, |g.rules|, sub);
            var first := newStacks + Advance(g, Expanded(g, st, sub));
            if r[e].kind.Alt? then
              e + 1 < |r| && Boundary(r, e + 1) && AltStart(r, e + 1) &&
              newStacks + AdvanceFrom(g, st, sub) == first + AdvanceFrom(g, st, e + 1)
            else newStacks + AdvanceFrom(g, st, sub) == first
  {
    hide Advance, AdvanceFrom, Measure, AltEnd, WellFormed, AltStart, OnRef, RefRule, Expanded, WellFormedRule,
         AllSettled, Boundary, ValidStack, EndOfSequence;
    RefFacts(g, st, sub);
    AdvanceFromStep(g, st, sub);
    var r := g.rules[RefRule(g, st)];
    var e := AltEnd(r, |g.rules|, sub);
    if r[e].kind.Alt? {
      BoundaryInside(r, e + 1);
      Regroup(newStacks, Advance(g, Expanded(g, st, sub)), AdvanceFrom(g, st, e + 1));
    } else {
      Regroup(newStacks, Advance(g, Expanded(g, st, sub)), []);
    }
  }

  lemma ExpandsFromFirst(g: Grammar, st: Stack)
    requires WellFormed(g) && OnRef(g, st)
    ensures var rule := g.rules[RefRule(g, st)];
            WellFormedRule(rule, |g.rules|) && Boundary(rule, 0) && AltStart(rule, 0) &&
            Advance(g, st) == AdvanceFrom(g, st, 0)
  {
    BoundaryFirst(g.rules[RefRule(g, st)], |g.rules|);
  }

  // the stack without its top reference, with what follows the reference and an alternate pushed
  method ReplaceTop(g: Grammar, st: Stack, sub: nat) returns (newStack: Stack)
    requires WellFormed(g) && OnRef(g, st) && Boundary(g.rules[RefRule(g, st)], sub)
    ensures newStack == Expanded(g, st, sub)
  {
    var pos := st[|st| - 1];
    var v := g.rules[pos.rule][pos.idx].value;
    BoundaryAfter(g.rules[pos.rule], |g.rules|, pos.idx);
    newStack := st[..|st| - 1];
    if !EndOfSequence(g.rules[pos.rule][pos.idx + 1]) { newStack := newStack + [Pos(pos.rule, pos.idx + 1)]; }
    if !EndOfSequence(g.rules[v][sub]) { newStack := newStack + [Pos(v, sub)]; }
  }

  method AcceptChar(g: Grammar, stacks: seq<Stack>, chr: nat) returns (newStacks: seq<Stack>)
    requires WellFormed(g) && AllSettled(g, stacks)
    ensures newStacks == Accept(g, stacks, chr)
  {
    hide WellFormed, Settled, Accept, AcceptOne;
    newStacks := [];
    assert stacks[0..] == stacks;
    for i := 0 to |stacks|
      invariant Accept(g, stacks, chr) == newStacks + Accept(g, stacks[i..], chr)
    {
      AcceptNext(g, stacks, i, chr);
      ghost var rest := Accept(g, stacks[i + 1..], chr);
      ghost var before := newStacks;
      newStacks := AcceptFrom(g, stacks[i], chr, newStacks);
      Regroup(before, AcceptOne(g, stacks[i], chr), rest);
    }
    NoneAccepted(g, chr);
    assert stacks[|stacks|..] == [];
  }

  method AcceptFrom(g: Grammar, st: Stack, chr: nat, newStacks: seq<Stack>) returns (out: seq<Stack>)
    requires WellFormed(g) && Settled(g, st)
    ensures out == newStacks + AcceptOne(g, st, chr)
  {
    hide WellFormed, Settled, Advance, AfterClass, TopClass;
    out := newStacks;
    if st != [] {
      var ok, newStack := MatchTop(g, st, chr);
      if ok { out := AdvanceStack(g, newStack, newStacks); }
    }
  }

  lemma AcceptNext(g: Grammar, stacks: seq<Stack>, i: nat, chr: nat)
    requires WellFormed(g) && AllSettled(g, stacks) && i < |stacks|
    ensures Accept(g, stacks[i..], chr) == AcceptOne(g, stacks[i], chr) + Accept(g, stacks[i + 1..], chr)
  {
    hide WellFormed, Settled, AcceptOne;
    assert stacks[i..][0] == stacks[i] && stacks[i..][1..] == stacks[i + 1..];
  }

  lemma NoneAccepted(g: Grammar, chr: nat)
    requires WellFormed(g)
    ensures Accept(g, [], chr) == []
  {
  }

  // matches the class on top; the stack behind it does not depend on the outcome
  method MatchTop(g: Grammar, st: Stack, chr: nat) returns (ok: bool, newStack: Stack)
    requires WellFormed(g) && Settled(g, st) && st != []
    ensures ok == Matches(TopClass(g, st), chr)
    ensures newStack == AfterClass(g, st)
  {
    var pos := st[|st| - 1];
    var after;
    ok, after := MatchChar(g.rules[pos.rule], |g.rules|, pos.idx, chr);
    newStack := st[..|st| - 1];
    if !EndOfSequence(g.rules[pos.rule][after]) { newStack := newStack + [Pos(pos.rule, after)]; }
  }

  method InitialStacks(g: Grammar, start: nat) returns (stacks: seq<Stack>)
    requires WellFormed(g) && start < |g.rules| && Boundary(g.rules[start], 0)
    ensures stacks == Initial(g, start, 0)
  {
    var rule := g.rules[start];
    hide WellFormed, Initial, AllSettled, Boundary;
    stacks := [];
    var pos: nat, more := 0, true;
    BoundaryInside(rule, 0);
    while more
      invariant more ==> pos < |rule| && Boundary(rule, pos)
      invariant Initial(g, start, 0) == if more then stacks + Initial(g, start, pos) else stacks
      decreases more, |rule| - pos
    {
      stacks, more, pos := InitialAlternate(g, start, pos, stacks);
    }
  }

  lemma BoundaryInside(r: Rule, i: nat)
    requires Boundary(r, i)
    ensures i < |r|
  {
  }

  method InitialAlternate(g: Grammar, start: nat, pos: nat, stacks: seq<Stack>)
    returns (out: seq<Stack>, more: bool, next: nat)
    requires WellFormed(g) && start < |g.rules| && Boundary(g.rules[start], pos)
    ensures more ==> pos < next < |g.rules[start]| && Boundary(g.rules[start], next)
    ensures stacks + Initial(g, start, pos) == if more then out + Initial(g, start, next) else out
  {
    hide WellFormed, Advance, WellFormedRule, WellFormedRules, AltEnd, Push, AllSettled, ValidStack, Initial,
         Boundary, EndOfSequence;
    StartFacts(g, start, pos);
    var rule := g.rules[start];
    InitialStep(g, start, pos);
    var st := StartStack(g, start, pos);
    out := AdvanceStack(g, st, stacks);
    var end := ScanAlternate(rule, |g.rules|, pos);
    more := rule[end].kind.Alt?;
    next := end + 1;
    if more { BoundaryInside(rule, next); }
    Regroup(stacks, Advance(g, st), if more then Initial(g, start, next) else []);
  }

  // an alternate that is empty is left out
  method StartStack(g: Grammar, start: nat, pos: nat) returns (st: Stack)
    requires WellFormed(g) && start < |g.rules| && Boundary(g.rules[start], pos)
    ensures ValidStack(g, st) && st == Push(g, [], start, pos)
  {
    st := if EndOfSequence(g.rules[start][pos]) then [] else [Pos(start, pos)];
  }

  // bounds the depth of the mutual recursion of the two methods below
  ghost function Depth(cands: seq<Candidate>): nat { if cands == [] then 0 else Longest(cands) + 1 }

  method RejectCandidatesForStack(g: Grammar, st: Stack, cands: seq<Candidate>) returns (rejects: seq<Candidate>)
    requires WellFormed(g) && Settled(g, st)
    ensures rejects == RejectForStack(g, st, cands)
    decreases Depth(cands), 1
  {
    hide WellFormed, Settled, Advance, AfterClass, TopClass, RejectForStack, Reject, RejectedNow, GoingOn;
    RejectNone(g, st);
    if st == [] {
      RejectByEmptyStack(g, cands);
      rejects := RejectUnfinished(g, cands);
      return;
    }
    var next: seq<Candidate>;
    rejects, next := TryTop(g, st, cands);
    if next != [] { GoingOnShorter(g, st, cands); }
    var _, after := MatchTop(g, st, 0);
    var nextStacks := AdvanceStack(g, after, []);
    assert nextStacks == Advance(g, AfterClass(g, st));
    var nextRejects := RejectCandidates(g, nextStacks, next);
    SplitReject(g, st, cands);
    rejects := AppendMovedBack(rejects, nextRejects);
  }

  // the candidates that an empty stack rejects
  method RejectUnfinished(g: Grammar, cands: seq<Candidate>) returns (rejects: seq<Candidate>)
    requires WellFormed(g)
    ensures rejects == RejectedNow(g, [], cands)
  {
    hide WellFormed, RejectedNow;
    rejects := [];
    assert cands[0..] == cands;
    for i := 0 to |cands|
      invariant RejectedNow(g, [], cands) == rejects + RejectedNow(g, [], cands[i..])
    {
      RejectedNext(g, [], cands, i);
      ghost var rest := RejectedNow(g, [], cands[i + 1..]);
      if !Exhausted(cands[i]) || cands[i].partial.remain != 0 {
        assert rejects + ([cands[i]] + rest) == rejects + [cands[i]] + rest;
        rejects := rejects + [cands[i]];
      } else {
        assert rejects + ([] + rest) == rejects + rest;
      }
    }
    RejectNone(g, []);
    assert cands[|cands|..] == [];
  }

  // tries the class on top on every candidate
  method TryTop(g: Grammar, st: Stack, cands: seq<Candidate>) returns (rejects: seq<Candidate>, next: seq<Candidate>)
    requires WellFormed(g) && Settled(g, st) && st != []
    ensures rejects == RejectedNow(g, st, cands) && next == GoingOn(g, st, cands)
  {
    hide WellFormed, Settled, RejectedNow, GoingOn, OutNow, GoesOn;
    rejects, next := [], [];
    assert cands[0..] == cands;
    for i := 0 to |cands|
      invariant RejectedNow(g, st, cands) == rejects + RejectedNow(g, st, cands[i..])
      invariant GoingOn(g, st, cands) == next + GoingOn(g, st, cands[i..])
    {
      RejectedNext(g, st, cands, i);
      GoingOnNext(g, st, cands, i);
      ghost var out, on := RejectedNow(g, st, cands[i + 1..]), GoingOn(g, st, cands[i + 1..]);
      var isOut, goesOn := TryOne(g, st, cands[i]);
      assert rejects + ([cands[i]] + out) == rejects + [cands[i]] + out;
      assert rejects + ([] + out) == rejects + out;
      assert next + ([Next(cands[i])] + on) == next + [Next(cands[i])] + on;
      assert next + ([] + on) == next + on;
      if goesOn { next := next + [Next(cands[i])]; }
      if isOut { rejects := rejects + [cands[i]]; }
    }
    RejectNone(g, st);
    assert cands[|cands|..] == [];
  }

  method TryOne(g: Grammar, st: Stack, c: Candidate) returns (isOut: bool, goesOn: bool)
    requires WellFormed(g) && Settled(g, st) && st != []
    ensures isOut == OutNow(g, st, c) && goesOn == GoesOn(g, st, c)
  {
    hide WellFormed, Settled, TopClass;
    isOut, goesOn := false, false;
    if Exhausted(c) {
      // reject a partial sequence that cannot satisfy this position
      if c.partial.remain != 0 {
        var fits := MatchTopPartial(g, st, c.partial);
        isOut := !fits;
      }
    } else {
      var ok, _ := MatchTop(g, st, c.text[c.at]);
      goesOn := ok;
      isOut := !goesOn;
    }
  }

  method AppendMovedBack(rejects: seq<Candidate>, moved: seq<Candidate>) returns (out: seq<Candidate>)
    requires forall k :: 0 <= k < |moved| ==> moved[k].at > 0
    ensures out == rejects + MovedBack(moved)
  {
    out := rejects;
    assert moved[0..] == moved;
    for i := 0 to |moved|
      invariant rejects + MovedBack(moved) == out + MovedBack(moved[i..])
    {
      hide Back;
      assert moved[i..][0] == moved[i] && moved[i..][1..] == moved[i + 1..];
      assert out + ([Back(moved[i])] + MovedBack(moved[i + 1..])) == out + [Back(moved[i])] + MovedBack(moved[i + 1..]);
      out := out + [Back(moved[i])];
    }
  }

  lemma RejectedNext(g: Grammar, st: Stack, cands: seq<Candidate>, i: nat)
    requires WellFormed(g) && Settled(g, st) && i < |cands|
    ensures RejectedNow(g, st, cands[i..]) ==
            (if OutNow(g, st, cands[i]) then [cands[i]] else []) + RejectedNow(g, st, cands[i + 1..])
  {
    hide WellFormed, Settled, OutNow;
    assert cands[i..][0] == cands[i] && cands[i..][1..] == cands[i + 1..];
  }

  lemma GoingOnNext(g: Grammar, st: Stack, cands: seq<Candidate>, i: nat)
    requires WellFormed(g) && Settled(g, st) && i < |cands|
    ensures GoingOn(g, st, cands[i..]) ==
            (if GoesOn(g, st, cands[i]) then [Next(cands[i])] else []) + GoingOn(g, st, cands[i + 1..])
  {
    hide WellFormed, Settled, GoesOn, Next;
    assert cands[i..][0] == cands[i] && cands[i..][1..] == cands[i + 1..];
  }

  lemma RejectNone(g: Grammar, st: Stack)
    requires WellFormed(g) && Settled(g, st)
    ensures RejectedNow(g, st, []) == [] && GoingOn(g, st, []) == []
  {
  }

  lemma RejectByEmptyStack(g: Grammar, cands: seq<Candidate>)
    requires WellFormed(g)
    ensures Settled(g, []) && RejectForStack(g, [], cands) == RejectedNow(g, [], cands)
  {
  }

  method MatchTopPartial(g: Grammar, st: Stack, p: Partial) returns (ok: bool)
    requires WellFormed(g) && Settled(g, st) && st != []
    ensures ok == MatchPartial(TopClass(g, st), p)
  {
    var pos := st[|st| - 1];
    ok := MatchPartialChar(g.rules[pos.rule], |g.rules|, pos.idx, p);
  }

  lemma SplitReject(g: Grammar, st: Stack, cands: seq<Candidate>)
    requires WellFormed(g) && Settled(g, st) && st != []
    ensures var r := Reject(g, Advance(g, AfterClass(g, st)), GoingOn(g, st, cands));
            && (forall k :: 0 <= k < |r| ==> r[k].at > 0)
            && RejectForStack(g, st, cands) == RejectedNow(g, st, cands) + MovedBack(r)
  {
    hide WellFormed, Settled, Advance, AfterClass, GoingOn, RejectedNow;
    MovedBackFrom(Reject(g, Advance(g, AfterClass(g, st)), GoingOn(g, st, cands)), GoingOn(g, st, cands), cands);
  }

  method RejectCandidates(g: Grammar, stacks: seq<Stack>, cands: seq<Candidate>) returns (rejects: seq<Candidate>)
    requires WellFormed(g) && AllSettled(g, stacks)
    ensures rejects == Reject(g, stacks, cands)
    decreases Depth(cands), if cands == [] then 0 else 2
  {
    if cands == [] || stacks == [] { return []; }
    hide WellFormed, Settled, RejectForStack;
    rejects := RejectCandidatesForStack(g, stacks[0], cands);
    for i := 1 to |stacks|
      invariant From(rejects, cands)
      invariant RejectByAll(g, stacks[i..], rejects) == Reject(g, stacks, cands)
    {
      assert stacks[i..][0] == stacks[i] && stacks[i..][1..] == stacks[i + 1..];
      FromShorter(rejects, cands);
      rejects := RejectCandidatesForStack(g, stacks[i], rejects);
    }
  }
}
