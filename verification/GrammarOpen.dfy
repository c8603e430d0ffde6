// Candidates that end inside a character: the filter against accepting every character that the
// open bytes can become.
module GrammarOpen {
  import opened Bytes
  import opened GrammarRules
  import opened GrammarEngine
  import opened GrammarAccept
  import opened GrammarReject
  import opened GrammarPartial
  import opened Utf8Decode

  // the stacks that c reaches can end in its partial character
  lemma {:induction false} DeadAtEnd(g: Grammar, sts: seq<Stack>, c: Candidate)
    requires WellFormed(g) && AllSettled(g, sts)
    ensures Dead(g, sts, c) <==>
            var ends := AcceptAll(g, sts, Points(c)); forall k :: 0 <= k < |ends| ==> !FineAtEnd(g, ends[k], c)
    decreases RestLength(c)
  {
    hide WellFormed, Settled, Accept, TopClass, MatchPartial;
    if !Exhausted(c) {
      DeadAtEnd(g, Accept(g, sts, c.text[c.at]), Next(c));
      PointsStep(g, sts, c);
      hide AcceptAll, Points;
      var ends := AcceptAll(g, sts, Points(c));
      forall k | 0 <= k < |ends| ensures FineAtEnd(g, ends[k], c) <==> FineAtEnd(g, ends[k], Next(c)) {}
    } else {
      assert Points(c) == [] && AcceptAll(g, sts, Points(c)) == sts;
    }
  }

  lemma PointsStep(g: Grammar, sts: seq<Stack>, c: Candidate)
    requires WellFormed(g) && AllSettled(g, sts) && !Exhausted(c)
    ensures AcceptAll(g, sts, Points(c)) == AcceptAll(g, Accept(g, sts, c.text[c.at]), Points(Next(c)))
  {
    hide WellFormed, Settled, Accept;
    assert Points(c)[1..] == Points(Next(c));
  }

  // a text that the decoder refuses is refused by every stack
  lemma BrokenIsDead(g: Grammar, sts: seq<Stack>, c: Candidate)
    requires WellFormed(g) && AllSettled(g, sts) && c.partial.remain < 0
    ensures Dead(g, sts, c)
  {
    hide WellFormed, Settled, AcceptAll, TopClass;
    DeadAtEnd(g, sts, c);
  }

  lemma {:induction false} AcceptSome(g: Grammar, sts: seq<Stack>, x: nat)
    requires WellFormed(g) && AllSettled(g, sts)
    ensures Accept(g, sts, x) != [] <==> exists k :: 0 <= k < |sts| && Takes(g, sts[k], x)
  {
    hide WellFormed, Settled, Takes, Advance, TopClass;
    if sts != [] {
      AcceptSome(g, sts[1..], x);
      TakesOne(g, sts[0], x);
      assert forall k :: 0 < k < |sts| ==> sts[k] == sts[1..][k - 1];
    }
  }

  // the class on top of st contains x
  predicate Takes(g: Grammar, st: Stack, x: nat)
    requires WellFormed(g) && Settled(g, st)
  {
    st != [] && Matches(TopClass(g, st), x)
  }

  lemma TakesOne(g: Grammar, st: Stack, x: nat)
    requires WellFormed(g) && Settled(g, st)
    ensures AcceptOne(g, st, x) != [] <==> Takes(g, st, x)
  {
    hide WellFormed, Settled, TopClass, AfterClass, Advance;
  }

  // every class on top decides as documented
  ghost predicate AllDecide(g: Grammar, sts: seq<Stack>, pre: seq<Byte>)
    requires WellFormed(g) && AllSettled(g, sts) && Open(pre)
  {
    forall k :: 0 <= k < |sts| && sts[k] != [] ==> Decides(TopClass(g, sts[k]), pre)
  }

  // some character that begins with pre leaves a stack
  ghost predicate Continues(g: Grammar, sts: seq<Stack>, pre: seq<Byte>)
    requires WellFormed(g) && AllSettled(g, sts)
  {
    exists x :: Completes(pre, x) && Accept(g, sts, x) != []
  }

  lemma ContinuesIffSomeTop(g: Grammar, sts: seq<Stack>, pre: seq<Byte>)
    requires WellFormed(g) && AllSettled(g, sts)
    ensures Continues(g, sts, pre) <==>
            exists k :: 0 <= k < |sts| && sts[k] != [] && CanComplete(TopClass(g, sts[k]), pre)
  {
    hide WellFormed, Settled, Accept, TopClass, Completes, Matches;
    if x :| Completes(pre, x) && Accept(g, sts, x) != [] {
      AcceptSome(g, sts, x);
      var k :| 0 <= k < |sts| && Takes(g, sts[k], x);
      assert CanComplete(TopClass(g, sts[k]), pre);
    }
    if k :| 0 <= k < |sts| && sts[k] != [] && CanComplete(TopClass(g, sts[k]), pre) {
      var x :| Completes(pre, x) && Matches(TopClass(g, sts[k]), x);
      AcceptSome(g, sts, x);
      assert Takes(g, sts[k], x);
    }
  }

  // Following an open candidate leaves no stack exactly when no character that its bytes can become does.
  lemma OpenDeadIsNoneContinues(g: Grammar, sts: seq<Stack>, c: Candidate, pre: seq<Byte>)
    requires WellFormed(g) && AllSettled(g, sts) && Open(pre) && c.partial == Read(pre)
    requires AllDecide(g, AcceptAll(g, sts, Points(c)), pre)
    ensures Dead(g, sts, c) <==> !Continues(g, AcceptAll(g, sts, Points(c)), pre)
  {
    var ends := AcceptAll(g, sts, Points(c));
    DeadAtEnd(g, sts, c);
    ContinuesIffSomeTop(g, ends, pre);
    hide WellFormed, Settled, AcceptAll, TopClass, MatchPartial, CanComplete, Decides, Continues, Open, Read;
    assert c.partial.remain != 0 by { StillOpen(pre); }
    forall k | 0 <= k < |ends| && ends[k] != []
      ensures MatchPartial(TopClass(g, ends[k]), c.partial) <==> CanComplete(TopClass(g, ends[k]), pre)
    {
      PartialMatchExactWhen(TopClass(g, ends[k]), pre);
    }
  }

  lemma StillOpen(pre: seq<Byte>)
    requires Open(pre)
    ensures Read(pre).remain > 0
  {
  }

  // An open candidate is rejected exactly when no character that its bytes can become leaves a stack
  // behind its code points.
  lemma FilterRefinesCompletion(g: Grammar, sts: seq<Stack>, cands: seq<Candidate>, c: Candidate, pre: seq<Byte>)
    requires WellFormed(g) && AllSettled(g, sts) && sts != [] && c in cands
    requires Open(pre) && c.partial == Read(pre) && AllDecide(g, AcceptAll(g, sts, Points(c)), pre)
    ensures c in Reject(g, sts, cands) <==>
            forall x :: Completes(pre, x) ==> AcceptAll(g, sts, Points(c) + [x]) == []
  {
    hide WellFormed, Settled, Reject, AcceptAll, Dead, Completes, Open, Read, AllDecide;
    RejectCount(g, sts, cands, c);
    OpenDeadIsNoneContinues(g, sts, c, pre);
    assert c in multiset(cands);
    assert c in Reject(g, sts, cands) <==> c in multiset(Reject(g, sts, cands));
    forall x ensures AcceptAll(g, sts, Points(c) + [x]) == Accept(g, AcceptAll(g, sts, Points(c)), x) {
      AcceptLast(g, sts, Points(c), x);
    }
  }

  lemma {:induction false} AcceptLast(g: Grammar, sts: seq<Stack>, cs: seq<nat>, x: nat)
    requires WellFormed(g) && AllSettled(g, sts)
    ensures AcceptAll(g, sts, cs + [x]) == Accept(g, AcceptAll(g, sts, cs), x)
    decreases |cs|
  {
    hide WellFormed, Settled, Accept;
    if cs == [] {
      assert ([x])[1..] == [] && cs + [x] == [x];
    } else {
      assert (cs + [x])[0] == cs[0] && (cs + [x])[1..] == cs[1..] + [x];
      AcceptLast(g, Accept(g, sts, cs[0]), cs[1..], x);
    }
  }

  // Whatever legal bytes have been read, those of the character that is still open say where the
  // decoder is.
  lemma {:induction false} OpenTail(bytes: seq<Byte>) returns (k: nat)
    requires AllLegal(Partial(0, 0), bytes) && StateAfter(Partial(0, 0), bytes).remain > 0
    ensures k < |bytes| && Open(bytes[k..]) && Read(bytes[k..]) == StateAfter(Partial(0, 0), bytes)
    decreases |bytes|
  {
    var n := |bytes| - 1;
    var b := bytes[n];
    var q := LastByte(bytes);
    hide StateAfter, AllLegal, Read, Open, Missing, LeadBits;
    if q.remain > 0 {
      k := OpenTail(bytes[..n]);
      assert bytes[k..] == bytes[..n][k..] + [b];
      OpenOn(bytes[..n][k..], b);
    } else {
      k := n;
      assert bytes[n..] == [b];
      OpenFirst(b);
    }
  }

  lemma LastByte(bytes: seq<Byte>) returns (q: Partial)
    requires bytes != [] && AllLegal(Partial(0, 0), bytes)
    ensures var n := |bytes| - 1;
            && AllLegal(Partial(0, 0), bytes[..n]) && q == StateAfter(Partial(0, 0), bytes[..n])
            && Legal(q, bytes[n]) && q.remain >= 0 && StateAfter(Partial(0, 0), bytes) == After(q, bytes[n])
  {
    var n, zero := |bytes| - 1, Partial(0, 0);
    var b := bytes[n];
    assert bytes == bytes[..n] + [b];
    InTwoPieces(zero, bytes[..n], [b]);
    q := StateAfter(zero, bytes[..n]);
    assert AllLegal(q, [b]) && StateAfter(q, [b]) == StateAfter(After(q, b), [b][1..]);
  }

  lemma OpenOn(pre: seq<Byte>, b: Byte)
    requires Open(pre) && Read(pre).remain > 1 && Continuation(b)
    ensures Open(pre + [b]) && Read(pre + [b]) == Partial(Read(pre).value * 64 + b % 64, Read(pre).remain - 1)
  {
    var next := pre + [b];
    assert next[..|pre|] == pre && next[|pre|] == b && next[0] == pre[0];
    assert Read(pre).remain == Missing(pre[0]) + 1 - |pre|;
    assert Open(next);
    hide AllLegal, StateAfter, Missing, Open, LeadBits;
    ReadOn(next, |pre|);
  }

  lemma ReadOn(pre: seq<Byte>, n: nat)
    requires Open(pre) && 0 < n == |pre| - 1 && Open(pre[..n])
    ensures Read(pre) == Partial(Read(pre[..n]).value * 64 + pre[n] % 64, Read(pre[..n]).remain - 1)
  {
    hide AllLegal, StateAfter, Missing, Open, LeadBits;
  }

  lemma OpenFirst(b: Byte)
    requires Missing(b) > 0
    ensures Open([b]) && Read([b]) == Partial(LeadBits(b), Missing(b))
  {
  }
}
