// Tokens: bytes go through the decoder, code points through the engine.
module GrammarTokens {
  import opened Bytes
  import opened GrammarRules
  import opened GrammarEngine
  import opened GrammarAccept
  import opened GrammarReject
  import opened GrammarPartial
  import opened GrammarOpen
  import opened GrammarRun
  import opened Utf8Decode

  // a special token, "[_..."
  predicate Special(text: seq<Byte>) { |text| >= 2 && text[0] == 0x5B && text[1] == 0x5F }

  datatype Matching = Matching(stacks: seq<Stack>, partial: Partial)

  predicate Fine(g: Grammar, m: Matching) { AllSettled(g, m.stacks) }

  // the decoded code points without the end marker
  function PointsOf(text: seq<Byte>, p: Partial): seq<nat> {
    var points := Decode(text, p).points;
    points[..|points| - 1]
  }

  function AfterToken(g: Grammar, m: Matching, text: seq<Byte>): (r: Matching)
    requires WellFormed(g) && Fine(g, m)
    ensures Fine(g, r)
  {
    if g.rules == [] || m.stacks == [] || Special(text) then m
    else Matching(AcceptAll(g, m.stacks, PointsOf(text, m.partial)), Decode(text, m.partial).partial)
  }

  function AfterTokens(g: Grammar, m: Matching, texts: seq<seq<Byte>>): (r: Matching)
    requires WellFormed(g) && Fine(g, m)
    ensures Fine(g, r)
    decreases |texts|
  {
    if texts == [] then m else AfterTokens(g, AfterToken(g, m, texts[0]), texts[1..])
  }

  function Ordinary(texts: seq<seq<Byte>>): seq<seq<Byte>> {
    if texts == [] then [] else (if Special(texts[0]) then [] else [texts[0]]) + Ordinary(texts[1..])
  }

  lemma {:induction false} AcceptInTwo(g: Grammar, sts: seq<Stack>, a: seq<nat>, b: seq<nat>)
    requires WellFormed(g) && AllSettled(g, sts)
    ensures AcceptAll(g, sts, a + b) == AcceptAll(g, AcceptAll(g, sts, a), b)
    decreases |a|
  {
    hide WellFormed, Settled, Accept;
    if a == [] {
      assert a + b == b;
    } else {
      assert (a + b)[0] == a[0] && (a + b)[1..] == a[1..] + b;
      AcceptInTwo(g, Accept(g, sts, a[0]), a[1..], b);
    }
  }

  lemma {:induction false} NothingLeft(g: Grammar, cs: seq<nat>)
    requires WellFormed(g)
    ensures AcceptAll(g, [], cs) == []
    decreases |cs|
  {
    hide WellFormed, Settled;
    if cs != [] { NothingLeft(g, cs[1..]); }
  }

  // The stacks only depend on the code points of the whole text, not on its division into tokens.
  lemma {:induction false} TokensAccept(g: Grammar, m: Matching, texts: seq<seq<Byte>>)
    requires WellFormed(g) && Fine(g, m) && g.rules != []
    ensures AfterTokens(g, m, texts).stacks == AcceptAll(g, m.stacks, DecodePieces(Ordinary(texts), m.partial).points)
    decreases |texts|
  {
    hide WellFormed, Settled, AcceptAll, Decode, Special;
    if texts == [] {
      NoPoints(g, m);
    } else {
      var n := AfterToken(g, m, texts[0]);
      TokensAccept(g, n, texts[1..]);
      var rest := DecodePieces(Ordinary(texts[1..]), n.partial).points;
      if Special(texts[0]) {
        assert [] + Ordinary(texts[1..]) == Ordinary(texts[1..]);
      } else {
        assert ([texts[0]] + Ordinary(texts[1..]))[1..] == Ordinary(texts[1..]);
        var here := PointsOf(texts[0], m.partial);
        if m.stacks == [] {
          NothingLeft(g, rest);
          NothingLeft(g, DecodePieces(Ordinary(texts), m.partial).points);
        } else {
          assert DecodePieces(Ordinary(texts), m.partial).points == here + rest;
          AcceptInTwo(g, m.stacks, here, rest);
        }
      }
    }
  }

  lemma NoPoints(g: Grammar, m: Matching)
    requires WellFormed(g) && Fine(g, m)
    ensures AcceptAll(g, m.stacks, []) == m.stacks
  {
  }

  // After any tokens whose bytes together encode cs, the stacks generate exactly what may follow cs.
  lemma TokensFollowGrammar(g: Grammar, start: nat, texts: seq<seq<Byte>>, cs: seq<nat>, w: seq<nat>)
    requires WellFormed(g) && start < |g.rules| && Boundary(g.rules[start], 0)
    requires Text(cs) && Concat(Ordinary(texts)) == EncodeAll(cs)
    ensures Lang(g, AfterTokens(g, Matching(Initial(g, start, 0), Partial(0, 0)), texts).stacks, w) <==>
            Generates(g.rules, [Ref(start)], cs + w)
  {
    assert WellFormedRules(g.rules);
    hide WellFormed, Generates, Lang, AcceptAll, Initial, AfterTokens, DecodePieces, Settled;
    TokensAccept(g, Matching(Initial(g, start, 0), Partial(0, 0)), texts);
    RoundTripInPieces(cs, Ordinary(texts));
    EngineFollowsGrammar(g, start, cs, w);
  }

  // ---- penalties ----

  function CandidateOf(id: nat, text: seq<Byte>, p: Partial): Candidate {
    Candidate(id, Decode(text, p).points, 0, Decode(text, p).partial)
  }

  // id is a token that no stack can take
  ghost predicate Penalized(g: Grammar, m: Matching, vocab: seq<seq<Byte>>, id: nat)
    requires WellFormed(g) && Fine(g, m)
  {
    g.rules != [] && m.stacks != [] && id < |vocab| && vocab[id] != [] &&
    Dead(g, m.stacks, CandidateOf(id, vocab[id], m.partial))
  }

  lemma {:induction false} PointsFrom(c: Candidate)
    requires c.text != [] && c.at < |c.text| && c.text[|c.text| - 1] == 0
    requires forall k :: c.at <= k < |c.text| - 1 ==> c.text[k] != 0
    ensures Points(c) == c.text[c.at..|c.text| - 1]
    decreases RestLength(c)
  {
    if c.at < |c.text| - 1 { PointsFrom(Next(c)); }
  }

  // A token that ends with a complete character is penalized exactly when accepting it would leave
  // no stack.
  lemma PenalizedIffRefused(g: Grammar, m: Matching, vocab: seq<seq<Byte>>, id: nat)
    requires WellFormed(g) && Fine(g, m) && g.rules != [] && m.stacks != []
    requires id < |vocab| && vocab[id] != [] && !Special(vocab[id])
    requires Decode(vocab[id], m.partial).partial.remain == 0 && 0 !in PointsOf(vocab[id], m.partial)
    ensures Penalized(g, m, vocab, id) <==> AfterToken(g, m, vocab[id]).stacks == []
  {
    hide WellFormed, Settled, AcceptAll, Dead;
    PointsOfToken(id, vocab[id], m.partial);
    hide Decode;
    DeadIsNoStackLeft(g, m.stacks, CandidateOf(id, vocab[id], m.partial));
  }

  lemma PointsOfToken(id: nat, text: seq<Byte>, p: Partial)
    requires 0 !in PointsOf(text, p)
    ensures Points(CandidateOf(id, text, p)) == PointsOf(text, p)
  {
    var c := CandidateOf(id, text, p);
    assert forall k :: 0 <= k < |c.text| - 1 ==> c.text[k] == PointsOf(text, p)[k];
    hide Decode;
    PointsFrom(c);
    assert c.text[0..|c.text| - 1] == PointsOf(text, p);
  }

  // A token that ends inside a character, of which it leaves the bytes pre open, is penalized exactly
  // when no character that begins with pre leaves a stack.
  lemma PenalizedIffNoCompletion(g: Grammar, m: Matching, vocab: seq<seq<Byte>>, id: nat, pre: seq<Byte>)
    requires WellFormed(g) && Fine(g, m) && g.rules != [] && m.stacks != [] && id < |vocab| && vocab[id] != []
    requires Open(pre) && Decode(vocab[id], m.partial).partial == Read(pre) && 0 !in PointsOf(vocab[id], m.partial)
    requires AllDecide(g, AcceptAll(g, m.stacks, PointsOf(vocab[id], m.partial)), pre)
    ensures Penalized(g, m, vocab, id) <==>
            forall x :: Completes(pre, x) ==> AcceptAll(g, m.stacks, PointsOf(vocab[id], m.partial) + [x]) == []
  {
    hide WellFormed, Settled, AcceptAll, Dead, Completes, Open, Read, AllDecide;
    var c := CandidateOf(id, vocab[id], m.partial);
    PointsOfToken(id, vocab[id], m.partial);
    hide Decode;
    OpenDeadIsNoneContinues(g, m.stacks, c, pre);
    forall x ensures AcceptAll(g, m.stacks, Points(c) + [x]) == Accept(g, AcceptAll(g, m.stacks, Points(c)), x) {
      AcceptLast(g, m.stacks, Points(c), x);
    }
  }

  // A token whose bytes the decoder refuses is penalized.
  lemma BrokenIsPenalized(g: Grammar, m: Matching, vocab: seq<seq<Byte>>, id: nat)
    requires WellFormed(g) && Fine(g, m) && g.rules != [] && m.stacks != [] && id < |vocab| && vocab[id] != []
    requires Decode(vocab[id], m.partial).partial.remain < 0
    ensures Penalized(g, m, vocab, id)
  {
    hide WellFormed, Settled, Dead, Decode;
    BrokenIsDead(g, m.stacks, CandidateOf(id, vocab[id], m.partial));
  }

  predicate DistinctIds(cands: seq<Candidate>) {
    forall i, j :: 0 <= i < j < |cands| ==> cands[i].id != cands[j].id
  }

  lemma MultisetIndices(s: seq<Candidate>, i: nat, j: nat)
    requires i < j < |s| && s[i] == s[j]
    ensures multiset(s)[s[i]] >= 2
  {
    assert s == s[..j] + [s[j]] + s[j + 1..];
    assert s[..j][i] == s[i];
    assert s[i] in multiset(s[..j]);
  }

  lemma {:induction false} DistinctOnce(cands: seq<Candidate>, c: Candidate)
    requires DistinctIds(cands)
    ensures multiset(cands)[c] == if c in cands then 1 else 0
  {
    if cands != [] {
      assert cands == [cands[0]] + cands[1..];
      DistinctOnce(cands[1..], c);
      if c == cands[0] { assert c !in cands[1..]; }
    }
  }

  // the rejected candidates are listed once each
  lemma RejectsDistinct(g: Grammar, sts: seq<Stack>, cands: seq<Candidate>)
    requires WellFormed(g) && AllSettled(g, sts) && sts != [] && DistinctIds(cands)
    ensures DistinctIds(Reject(g, sts, cands))
    ensures forall c :: c in Reject(g, sts, cands) <==> c in cands && Dead(g, sts, c)
  {
    hide WellFormed, Settled, Reject, Dead;
    var r := Reject(g, sts, cands);
    forall c ensures multiset(r)[c] == (if c in cands && Dead(g, sts, c) then 1 else 0) {
      RejectCount(g, sts, cands, c);
      DistinctOnce(cands, c);
    }
    forall c ensures c in r <==> c in cands && Dead(g, sts, c) {
      assert c in r <==> c in multiset(r);
    }
    forall i, j | 0 <= i < j < |r| ensures r[i].id != r[j].id {
      assert r[i] in cands && r[j] in cands;
      if r[i].id == r[j].id {
        assert r[i] == r[j];
        MultisetIndices(r, i, j);
      }
    }
  }

  class Matcher {
    const g: Grammar
    var stacks: seq<Stack>
    var partial: Partial

    ghost predicate Valid()
      reads this
    {
      WellFormed(g) && AllSettled(g, stacks)
    }

    function State(): Matching
      reads this
    {
      Matching(stacks, partial)
    }

    constructor (g: Grammar, start: nat)
      requires WellFormed(g) && start < |g.rules| && Boundary(g.rules[start], 0)
      ensures Valid() && this.g == g && State() == Matching(Initial(g, start, 0), Partial(0, 0))
    {
      var stacks := InitialStacks(g, start);
      this.g := g;
      this.stacks := stacks;
      this.partial := Partial(0, 0);
    }

    method AcceptToken(text: seq<Byte>)
      requires Valid()
      modifies this
      ensures Valid() && State() == AfterToken(g, old(State()), text)
      // "[_" starts a special token
      ensures g.rules == [] || old(stacks) == [] || [0x5B, 0x5F] <= text ==> State() == old(State())
      ensures g.rules != [] && old(stacks) != [] && !([0x5B, 0x5F] <= text) ==>
                stacks == AcceptAll(g, old(stacks), PointsOf(text, old(partial))) &&
                partial == Decode(text, old(partial)).partial
    {
      assert Special(text) <==> [0x5B, 0x5F] <= text;
      hide WellFormed, Settled, Decode, Special, Accept;
      if g.rules == [] || stacks == [] { return; }
      if Special(text) { return; }
      var codePoints, rest := DecodeUtf8(text, partial);
      ghost var points := PointsOf(text, partial);
      assert codePoints == Decode(text, partial).points && points == codePoints[..|codePoints| - 1];
      for i := 0 to |codePoints| - 1
        invariant WellFormed(g) && AllSettled(g, stacks) && partial == old(partial)
        invariant AcceptAll(g, stacks, points[i..]) == AcceptAll(g, old(stacks), points)
      {
        assert points[i..][0] == codePoints[i] && points[i..][1..] == points[i + 1..];
        stacks := AcceptChar(g, stacks, codePoints[i]);
      }
      partial := rest;
    }

    // lowers the logit of every token that the grammar cannot take
    method SuppressInvalid(vocab: seq<seq<Byte>>, logits: array<real>, penalty: real)
      requires Valid() && |vocab| <= logits.Length
      modifies logits
      ensures forall id :: 0 <= id < logits.Length ==>
                logits[id] == if Penalized(g, State(), vocab, id) then old(logits[id]) - penalty else old(logits[id])
    {
      hide WellFormed, Settled, Decode, Dead, Reject;
      if g.rules == [] || stacks == [] { return; }
      var cands := Candidates(vocab, partial);
      var rejects := RejectCandidates(g, stacks, cands);
      RejectsDistinct(g, stacks, cands);
      for i := 0 to |rejects|
        invariant forall id :: 0 <= id < logits.Length ==>
                    logits[id] == if exists k :: 0 <= k < i && rejects[k].id == id then old(logits[id]) - penalty
                                   else old(logits[id])
      {
        assert rejects[i] in cands;
        logits[rejects[i].id] := logits[rejects[i].id] - penalty;
      }
    }
  }

  // one candidate for each token with a text
  method Candidates(vocab: seq<seq<Byte>>, partial: Partial) returns (cands: seq<Candidate>)
    ensures DistinctIds(cands)
    ensures forall c :: c in cands <==>
            c.id < |vocab| && vocab[c.id] != [] && c == CandidateOf(c.id, vocab[c.id], partial)
  {
    hide Decode;
    cands := [];
    for id := 0 to |vocab|
      invariant DistinctIds(cands)
      invariant forall c :: c in cands <==>
                c.id < id && vocab[c.id] != [] && c == CandidateOf(c.id, vocab[c.id], partial)
    {
      if vocab[id] != [] {
        var points, p := DecodeUtf8(vocab[id], partial);
        cands := cands + [Candidate(id, points, 0, p)];
      }
    }
  }
}
