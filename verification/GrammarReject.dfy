// Filtering token candidates: the recursive filter agrees with following each candidate alone.
module GrammarReject {
  import opened Bytes
  import opened GrammarRules
  import opened GrammarEngine
  import opened GrammarAccept

  // code points from at on; text ends at its first 0 or at its end
  datatype Candidate = Candidate(id: nat, text: seq<nat>, at: nat, partial: Partial)

  predicate Exhausted(c: Candidate) { c.at >= |c.text| || c.text[c.at] == 0 }

  function Next(c: Candidate): Candidate { c.(at := c.at + 1) }

  function Back(c: Candidate): Candidate
    requires c.at > 0
  {
    c.(at := c.at - 1)
  }

  lemma BackUndoesNext(x: Candidate, c: Candidate)
    requires x.at > 0
    ensures Back(x) == c <==> x == Next(c)
  {
  }

  // the code points that a partial sequence can still become
  function PartialLow(p: Partial): nat
    requires p.remain >= 0
  {
    var low := p.value * Pow64(p.remain);
    if low == 0 && p.remain == 2 then 0x800 else if low == 0 && p.remain == 3 then 0x1_0000 else low
  }

  function PartialHigh(p: Partial): nat
    requires p.remain >= 0
  {
    p.value * Pow64(p.remain) + Pow64(p.remain) - 1
  }

  // invalid, or an overlong form of a 7-bit character
  predicate HopelessPartial(p: Partial) { p.remain < 0 || (p.remain == 1 && p.value < 2) }

  predicate RangesMeet(rs: seq<Range>, low: int, high: int) {
    exists i :: 0 <= i < |rs| && rs[i].lower <= high && low <= rs[i].upper
  }

  // an overlap with any range decides: yes for a class, no for a negated one
  predicate MatchPartial(s: Symbol, p: Partial)
    requires s.Class?
  {
    !HopelessPartial(p) && RangesMeet(s.ranges, PartialLow(p), PartialHigh(p)) != s.negated
  }

  // ---- the filter ----

  function RestLength(c: Candidate): nat { if c.at < |c.text| then |c.text| - c.at else 0 }

  // the most code points that any candidate still has
  function Longest(cands: seq<Candidate>): (n: nat)
    ensures forall k :: 0 <= k < |cands| ==> RestLength(cands[k]) <= n
  {
    if cands == [] then 0
    else
      var n := Longest(cands[1..]);
      if RestLength(cands[0]) > n then RestLength(cands[0]) else n
  }

  lemma {:induction false} LongestBound(cands: seq<Candidate>, n: nat)
    requires forall k :: 0 <= k < |cands| ==> RestLength(cands[k]) <= n
    ensures Longest(cands) <= n
  {
    if cands != [] { LongestBound(cands[1..], n); }
  }

  // some of the candidates, each with its position
  predicate From(r: seq<Candidate>, cands: seq<Candidate>) {
    forall k :: 0 <= k < |r| ==> r[k] in cands
  }

  lemma FromShorter(r: seq<Candidate>, cands: seq<Candidate>)
    requires From(r, cands)
    ensures Longest(r) <= Longest(cands)
  {
    LongestBound(r, Longest(cands));
  }

  // c survives stack st without another code point
  predicate FineAtEnd(g: Grammar, st: Stack, c: Candidate)
    requires WellFormed(g) && Settled(g, st)
  {
    c.partial.remain == 0 || (st != [] && MatchPartial(TopClass(g, st), c.partial))
  }

  predicate GoesOn(g: Grammar, st: Stack, c: Candidate)
    requires WellFormed(g) && Settled(g, st)
  {
    st != [] && !Exhausted(c) && Matches(TopClass(g, st), c.text[c.at])
  }

  // rejected by st at once
  predicate OutNow(g: Grammar, st: Stack, c: Candidate)
    requires WellFormed(g) && Settled(g, st)
  {
    if Exhausted(c) then !FineAtEnd(g, st, c) else !GoesOn(g, st, c)
  }

  function RejectedNow(g: Grammar, st: Stack, cands: seq<Candidate>): (r: seq<Candidate>)
    requires WellFormed(g) && Settled(g, st)
    ensures From(r, cands)
  {
    if cands == [] then []
    else (if OutNow(g, st, cands[0]) then [cands[0]] else []) + RejectedNow(g, st, cands[1..])
  }

  // candidates moved on by one code point
  predicate MovedOn(r: seq<Candidate>, cands: seq<Candidate>) {
    forall k :: 0 <= k < |r| ==> 0 < r[k].at <= |r[k].text| && Back(r[k]) in cands
  }

  // those that st accepts a code point of, moved on by it
  function GoingOn(g: Grammar, st: Stack, cands: seq<Candidate>): (r: seq<Candidate>)
    requires WellFormed(g) && Settled(g, st)
    ensures MovedOn(r, cands)
  {
    if cands == [] then []
    else (if GoesOn(g, st, cands[0]) then [Next(cands[0])] else []) + GoingOn(g, st, cands[1..])
  }

  lemma GoingOnShorter(g: Grammar, st: Stack, cands: seq<Candidate>)
    requires WellFormed(g) && Settled(g, st) && GoingOn(g, st, cands) != []
    ensures Longest(GoingOn(g, st, cands)) < Longest(cands)
  {
    var r := GoingOn(g, st, cands);
    var n := Longest(cands);
    forall k | 0 <= k < |r| ensures RestLength(r[k]) + 1 <= n {
      var l :| 0 <= l < |cands| && cands[l] == Back(r[k]);
      assert RestLength(cands[l]) <= n;
    }
    assert RestLength(r[0]) + 1 <= n;
    LongestBound(r, n - 1);
  }

  function MovedBack(cands: seq<Candidate>): (r: seq<Candidate>)
    requires forall k :: 0 <= k < |cands| ==> cands[k].at > 0
  {
    if cands == [] then [] else [Back(cands[0])] + MovedBack(cands[1..])
  }

  lemma {:induction false} MovedBackFrom(next: seq<Candidate>, on: seq<Candidate>, cands: seq<Candidate>)
    requires From(next, on) && MovedOn(on, cands)
    ensures forall k :: 0 <= k < |next| ==> next[k].at > 0
    ensures From(MovedBack(next), cands)
  {
    if next != [] { MovedBackFrom(next[1..], on, cands); }
  }

  lemma FromBoth(a: seq<Candidate>, b: seq<Candidate>, cands: seq<Candidate>)
    requires From(a, cands) && From(b, cands)
    ensures From(a + b, cands)
  {
  }

  function RejectForStack(g: Grammar, st: Stack, cands: seq<Candidate>): (r: seq<Candidate>)
    requires WellFormed(g) && Settled(g, st)
    ensures From(r, cands)
    decreases Longest(cands), 0
  {
    var on := GoingOn(g, st, cands);
    if st == [] || on == [] then RejectedNow(g, st, cands)
    else
      GoingOnShorter(g, st, cands);
      var next := Reject(g, Advance(g, AfterClass(g, st)), on);
      MovedBackFrom(next, on, cands);
      FromBoth(RejectedNow(g, st, cands), MovedBack(next), cands);
      RejectedNow(g, st, cands) + MovedBack(next)
  }

  // rejected by every stack, in turn
  function RejectByAll(g: Grammar, sts: seq<Stack>, cands: seq<Candidate>): (r: seq<Candidate>)
    requires WellFormed(g) && AllSettled(g, sts)
    ensures From(r, cands)
    decreases Longest(cands), 1, |sts|
  {
    if sts == [] then cands
    else
      var r := RejectForStack(g, sts[0], cands);
      FromShorter(r, cands);
      RejectByAll(g, sts[1..], r)
  }

  function Reject(g: Grammar, sts: seq<Stack>, cands: seq<Candidate>): (r: seq<Candidate>)
    requires WellFormed(g) && AllSettled(g, sts)
    ensures From(r, cands)
    decreases Longest(cands), 2
  {
    if cands == [] || sts == [] then [] else RejectByAll(g, sts, cands)
  }

  // ---- the same, one candidate at a time ----

  // following c through the stacks by accepting its code points leaves no stack that c can end in
  ghost predicate Dead(g: Grammar, sts: seq<Stack>, c: Candidate)
    requires WellFormed(g) && AllSettled(g, sts)
    decreases RestLength(c)
  {
    if Exhausted(c) then forall k :: 0 <= k < |sts| ==> !FineAtEnd(g, sts[k], c)
    else Dead(g, Accept(g, sts, c.text[c.at]), Next(c))
  }

  lemma {:induction false} DeadConcat(g: Grammar, a: seq<Stack>, b: seq<Stack>, c: Candidate)
    requires WellFormed(g) && AllSettled(g, a) && AllSettled(g, b)
    ensures AllSettled(g, a + b) && (Dead(g, a + b, c) <==> Dead(g, a, c) && Dead(g, b, c))
    decreases RestLength(c)
  {
    hide WellFormed, Settled, Accept, FineAtEnd;
    if Exhausted(c) {
      assert forall k :: 0 <= k < |a| ==> (a + b)[k] == a[k];
      assert forall k :: 0 <= k < |b| ==> (a + b)[|a| + k] == b[k];
    } else {
      AcceptConcat(g, a, b, c.text[c.at]);
      DeadConcat(g, Accept(g, a, c.text[c.at]), Accept(g, b, c.text[c.at]), Next(c));
    }
  }

  lemma {:induction false} RejectedNowCount(g: Grammar, st: Stack, cands: seq<Candidate>, c: Candidate)
    requires WellFormed(g) && Settled(g, st)
    ensures multiset(RejectedNow(g, st, cands))[c] == if OutNow(g, st, c) then multiset(cands)[c] else 0
  {
    hide WellFormed, Settled, OutNow, From;
    if cands != [] {
      var rest := RejectedNow(g, st, cands[1..]);
      RejectedNowCount(g, st, cands[1..], c);
      CountFirst(cands, c);
      if OutNow(g, st, cands[0]) { CountPush(cands[0], rest, c); } else { assert [] + rest == rest; }
    }
  }

  lemma {:induction false} GoingOnCount(g: Grammar, st: Stack, cands: seq<Candidate>, c: Candidate)
    requires WellFormed(g) && Settled(g, st)
    ensures multiset(GoingOn(g, st, cands))[Next(c)] == if GoesOn(g, st, c) then multiset(cands)[c] else 0
  {
    hide WellFormed, Settled, GoesOn, From, MovedOn, Next, Back, Longest;
    if cands != [] {
      var rest := GoingOn(g, st, cands[1..]);
      GoingOnCount(g, st, cands[1..], c);
      CountFirst(cands, c);
      if GoesOn(g, st, cands[0]) {
        CountPush(Next(cands[0]), rest, Next(c));
        SameNext(cands[0], c);
      } else {
        assert [] + rest == rest;
      }
    }
  }

  lemma CountFirst(cands: seq<Candidate>, c: Candidate)
    requires cands != []
    ensures multiset(cands)[c] == (if cands[0] == c then 1 else 0) + multiset(cands[1..])[c]
  {
    assert cands == [cands[0]] + cands[1..];
  }

  lemma CountPush(x: Candidate, rest: seq<Candidate>, c: Candidate)
    ensures multiset([x] + rest)[c] == (if x == c then 1 else 0) + multiset(rest)[c]
  {
  }

  lemma SameNext(a: Candidate, b: Candidate)
    ensures Next(a) == Next(b) <==> a == b
  {
  }

  lemma {:induction false} MovedBackCount(cands: seq<Candidate>, c: Candidate)
    requires forall k :: 0 <= k < |cands| ==> cands[k].at > 0
    ensures multiset(MovedBack(cands))[c] == multiset(cands)[Next(c)]
  {
    if cands != [] {
      hide Back, Next;
      BackUndoesNext(cands[0], c);
      MovedBackCount(cands[1..], c);
      CountFirst(cands, Next(c));
      CountPush(Back(cands[0]), MovedBack(cands[1..]), c);
    }
  }

  // ---- the filter is exact ----

  lemma {:induction false} RejectForStackCount(g: Grammar, st: Stack, cands: seq<Candidate>, c: Candidate)
    requires WellFormed(g) && Settled(g, st)
    ensures multiset(RejectForStack(g, st, cands))[c] == if Dead(g, [st], c) then multiset(cands)[c] else 0
    decreases Longest(cands), 0
  {
    hide WellFormed, Settled, Advance, Reject, RejectedNow, GoingOn, OutNow, FineAtEnd, TopClass, AfterClass;
    RejectedNowCount(g, st, cands, c);
    GoingOnCount(g, st, cands, c);
    DeadAlone(g, st, c);
    if st != [] && GoingOn(g, st, cands) != [] {
      var next := Advance(g, AfterClass(g, st));
      GoingOnShorter(g, st, cands);
      RejectCount(g, next, GoingOn(g, st, cands), Next(c));
      MovedBackCount(Reject(g, next, GoingOn(g, st, cands)), c);
    }
  }

  // one stack: either the decision falls at once, or it is that of the expanded stack
  lemma DeadAlone(g: Grammar, st: Stack, c: Candidate)
    requires WellFormed(g) && Settled(g, st)
    ensures OutNow(g, st, c) ==> Dead(g, [st], c) && !GoesOn(g, st, c)
    ensures !OutNow(g, st, c) && !GoesOn(g, st, c) ==> !Dead(g, [st], c)
    ensures GoesOn(g, st, c) ==> st != [] && (Dead(g, [st], c) <==> Dead(g, Advance(g, AfterClass(g, st)), Next(c)))
  {
    hide WellFormed, Settled, Advance, TopClass, AfterClass, FineAtEnd;
    assert [st][0] == st && [st][1..] == [];
    if !Exhausted(c) {
      hide Dead;
      DeadStep(g, [st], c);
      DeadNone(g, Next(c));
      assert Accept(g, [st], c.text[c.at]) == AcceptOne(g, st, c.text[c.at]) + Accept(g, [], c.text[c.at]);
      assert AcceptOne(g, st, c.text[c.at]) + [] == AcceptOne(g, st, c.text[c.at]);
      if GoesOn(g, st, c) {
        assert AcceptOne(g, st, c.text[c.at]) == Advance(g, AfterClass(g, st));
      } else {
        assert AcceptOne(g, st, c.text[c.at]) == [];
      }
    }
  }

  lemma DeadStep(g: Grammar, sts: seq<Stack>, c: Candidate)
    requires WellFormed(g) && AllSettled(g, sts) && !Exhausted(c)
    ensures Dead(g, sts, c) <==> Dead(g, Accept(g, sts, c.text[c.at]), Next(c))
  {
  }

  lemma {:induction false} DeadNone(g: Grammar, c: Candidate)
    requires WellFormed(g)
    ensures Dead(g, [], c)
    decreases RestLength(c)
  {
    hide WellFormed;
    if !Exhausted(c) { DeadNone(g, Next(c)); }
  }

  lemma {:induction false} RejectByAllCount(g: Grammar, sts: seq<Stack>, cands: seq<Candidate>, c: Candidate)
    requires WellFormed(g) && AllSettled(g, sts)
    ensures multiset(RejectByAll(g, sts, cands))[c] == if Dead(g, sts, c) then multiset(cands)[c] else 0
    decreases Longest(cands), 1, |sts|
  {
    hide WellFormed, Settled, Dead, RejectForStack;
    if sts == [] {
      DeadNone(g, c);
    } else {
      var r := RejectForStack(g, sts[0], cands);
      RejectForStackCount(g, sts[0], cands, c);
      FromShorter(r, cands);
      RejectByAllCount(g, sts[1..], r, c);
      DeadConcat(g, [sts[0]], sts[1..], c);
      assert [sts[0]] + sts[1..] == sts;
    }
  }

  // A candidate is rejected as often as it was listed if following it alone leaves no stack, and
  // not at all otherwise.
  lemma {:induction false} RejectCount(g: Grammar, sts: seq<Stack>, cands: seq<Candidate>, c: Candidate)
    requires WellFormed(g) && AllSettled(g, sts) && sts != []
    ensures multiset(Reject(g, sts, cands))[c] == if Dead(g, sts, c) then multiset(cands)[c] else 0
    decreases Longest(cands), 2
  {
    hide WellFormed, Settled, Dead, RejectByAll;
    if cands != [] { RejectByAllCount(g, sts, cands, c); }
  }

  // the code points of c that are still to come
  function Points(c: Candidate): seq<nat>
    decreases RestLength(c)
  {
    if Exhausted(c) then [] else [c.text[c.at]] + Points(Next(c))
  }

  lemma {:induction false} DeadIsNoStackLeft(g: Grammar, sts: seq<Stack>, c: Candidate)
    requires WellFormed(g) && AllSettled(g, sts) && c.partial.remain == 0
    ensures Dead(g, sts, c) <==> AcceptAll(g, sts, Points(c)) == []
    decreases RestLength(c)
  {
    hide WellFormed, Settled, Accept;
    if Exhausted(c) {
      if sts != [] { assert FineAtEnd(g, sts[0], c); }
    } else {
      DeadIsNoStackLeft(g, Accept(g, sts, c.text[c.at]), Next(c));
      assert Points(c)[1..] == Points(Next(c));
    }
  }

  // A completely decoded candidate is rejected exactly when accepting its code points leaves no stack.
  lemma FilterRefinesSimulation(g: Grammar, sts: seq<Stack>, cands: seq<Candidate>, c: Candidate)
    requires WellFormed(g) && AllSettled(g, sts) && sts != [] && c in cands && c.partial.remain == 0
    ensures c in Reject(g, sts, cands) <==> AcceptAll(g, sts, Points(c)) == []
  {
    hide WellFormed, Settled, Reject, AcceptAll, Dead;
    RejectCount(g, sts, cands, c);
    DeadIsNoStackLeft(g, sts, c);
    assert c in multiset(cands);
    assert c in Reject(g, sts, cands) <==> c in multiset(Reject(g, sts, cands));
  }
}
