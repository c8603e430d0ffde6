// An output that is a view, read by a later node: its memory is given back, and another node takes it.
module PlanExample {
  import opened FreeList
  import opened ChunkSpec
  import opened GraphSpec
  import opened PlanSpec
  import opened PlanLiveness
  import opened PlanSteps
  import opened PlanRelease
  import opened PlanExecution

  function Plain(src: seq<nat>): Tensor { Tensor(OtherOp, src, None, false, false, false, 0) }

  // node 1 is an output and a view of node 0; node 2 reads it, and node 3 needs as much as node 0
  function ReadViewOutput(): Graph {
    Graph([Plain([]), Tensor(OtherOp, [0], Some(0), false, true, false, 0), Plain([1]), Plain([2])], [0, 1, 2, 3], [])
  }

  function Setting(): Config { Config(ReadViewOutput(), [0], [[32, 32, 32, 32]], [32]) }

  lemma Nodes()
    ensures var g := ReadViewOutput();
            && |g.nodes| == 4 && |g.tensors| == 4 && g.leafs == []
            && (forall i :: 0 <= i < 4 ==> g.nodes[i] == i)
            && (forall t :: 0 <= t < 4 ==> g.tensors[t].op.OtherOp? && !g.tensors[t].input && !g.tensors[t].external)
            && (forall t :: 0 <= t < 4 ==> g.tensors[t].viewSrc == (if t == 1 then Some(0) else None) &&
                                           (g.tensors[t].output <==> t == 1))
            && (forall t :: 0 <= t < 4 ==> g.tensors[t].src == if t == 0 then [] else [t - 1])
  {
  }

  lemma Sources()
    ensures InRange(ReadViewOutput())
    ensures forall i: nat, s: nat :: i < 4 ==> (s in Src(ReadViewOutput(), i) <==> i > 0 && s == i - 1)
    ensures forall t: nat :: t < 4 ==> Root(ReadViewOutput(), t) == (if t == 1 then 0 else t) &&
                                       (Managed(ReadViewOutput(), t) <==> t != 1)
  {
    hide ReadViewOutput;
    Nodes();
  }

  lemma FrontNodes(i: nat, t: nat)
    requires i <= 4
    ensures |ReadViewOutput().nodes| == 4 && (t in ReadViewOutput().nodes[..i] <==> t < i)
  {
    hide ReadViewOutput;
    Nodes();
    if t < i { assert ReadViewOutput().nodes[..i][t] == t; }
  }

  lemma AllNodes(t: nat)
    ensures t in ReadViewOutput().nodes <==> t < 4
  {
    FrontNodes(4, t);
    assert ReadViewOutput().nodes[..4] == ReadViewOutput().nodes;
  }

  lemma IsOrdered()
    ensures InRange(ReadViewOutput()) && Ordered(ReadViewOutput())
  {
    hide ReadViewOutput, Src, InRange, Root;
    Nodes();
    Sources();
    FrontNodes(1, 0);
    FrontNodes(2, 0);
  }

  lemma IsWellFormed()
    ensures WellFormed(ReadViewOutput())
  {
    hide ReadViewOutput, Src, InRange, Root, Managed, Ordered;
    Nodes();
    Sources();
    IsOrdered();
    forall t: nat ensures t in ReadViewOutput().nodes <==> t < 4 { AllNodes(t); }
  }

  lemma Sizes()
    ensures var cfg := Setting();
            && cfg.g == ReadViewOutput() && cfg.bufs == [0] && cfg.aligns == [32] && |cfg.sizes| == 1
            && |cfg.sizes[0]| == 4
            && forall t :: 0 <= t < 4 ==> cfg.sizes[0][t] == 32
  {
    hide ReadViewOutput;
  }

  lemma Valid()
    ensures ValidConfig(Setting()) && forall t: nat :: t < 4 ==> Padded(Setting(), 0, t) == 32
  {
    hide ReadViewOutput, Setting, WellFormed, AlignedOffset;
    Sizes();
    IsWellFormed();
    Nodes();
    NoPadding();
    var cfg := Setting();
    forall k, t | 0 <= k < 1 && 0 <= t < 4 ensures cfg.sizes[k][t] == 32 && cfg.aligns[k] == 32 {}
  }

  lemma NoPadding()
    ensures AlignedOffset(32, 32) == 32
  {
  }

  lemma Uses()
    ensures InRange(ReadViewOutput()) && UsesFrom(ReadViewOutput(), 0, 1) > 0 && !KeptByView(ReadViewOutput(), 0)
  {
    hide ReadViewOutput, UsesFrom, Src, InRange;
    var g := ReadViewOutput();
    Nodes();
    Sources();
    UsesPositive(g, 0, 2, 1);
    forall v | ComputedViewOf(g, v, 0) ensures v == 1 {}
  }

  // Whatever the planner does with this graph, the memory behind the output is given back.
  lemma ViewOutputGivenBack(st: State)
    requires Ready(Setting(), st, |Setting().g.nodes|) && GivenBack(Setting(), st, |Setting().g.nodes|, 0)
    requires 0 in st.ever
    ensures 0 < |st.hash| && !st.hash[0].owned
  {
    assert Shape(Setting(), st);
    hide LifeInv, SafeInv, CountInv, GivenBack, ReadViewOutput, Setting, KeptByView, UsesFrom, WellFormed;
    Sizes();
    Nodes();
    Uses();
    AllNodes(1);
    assert ComputedViewOf(Setting().g, 1, 0);
    assert !Untouched(Setting().g, 0);
    KeptExactlyWhen(Setting(), st, 0);
  }

  // ---- the calls of the allocator: node 0, node 2, node 0 given back, node 3 ----

  // an allocation that leads from view v to view w
  ghost predicate Took(v: View, w: View, a: Address, n: nat, maxChunk: nat) {
    Chosen(v, n, a) && Allocated(WithChunk(v, a, n, maxChunk), w, a, n)
  }

  // the bytes from o up to t
  function Rest(o: nat, t: nat): seq<Block> { if o < t then [Block(o, t - o)] else [] }

  lemma RestFree(o: nat, t: nat)
    ensures Canonical(Rest(o, t)) && forall x :: FreeAt(Rest(o, t), x) <==> o <= x < t
  {
    if o < t {
      forall x ensures FreeAt(Rest(o, t), x) <==> o <= x < t {
        if o <= x < t { assert Inside(Rest(o, t)[0], x); }
      }
    }
  }

  lemma RestAfter(o: nat, t: nat, n: nat, r: seq<Block>)
    requires Removed(Rest(o, t), r, o, n)
    ensures r == Rest(o + n, t)
  {
    RestFree(o, t);
    RestFree(o + n, t);
    hide Rest, FreeAt, Canonical;
    CanonicalUnique(r, Rest(o + n, t));
  }

  // the first n bytes come back: in front of what is left, or joined with it
  lemma RestWithFront(n: nat, o: nat, t: nat, r: seq<Block>)
    requires 0 < n <= o <= t && Added(Rest(o, t), r, 0, n)
    ensures r == if o == n then Rest(0, t) else [Block(0, n)] + Rest(o, t)
  {
    RestFree(o, t);
    RestFree(0, t);
    RestFree(0, n);
    if o == n {
      CanonicalUnique(r, Rest(0, t));
    } else {
      var q := [Block(0, n)] + Rest(o, t);
      forall x ensures FreeAt(q, x) <==> 0 <= x < n || o <= x < t { FreeAtConcat([Block(0, n)], Rest(o, t), x); }
      CanonicalUnique(r, q);
    }
  }

  lemma FirstTook(v: View, a: Address, n: nat, maxChunk: nat)
    requires n > 0 && Took([], v, a, n, maxChunk)
    ensures a == Address(0, 0) && v == [ChunkView(Rest(n, Max(n, maxChunk)), Max(n, maxChunk), n)]
  {
    var t := Max(n, maxChunk);
    assert NoInnerFit([], n) && NoTailFit([], n);
    assert Rest(0, t) == [Block(0, t)];
    RestAfter(0, t, n, v[0].free);
  }

  // one chunk with room at its end, or none
  lemma SecondTook(v: View, w: View, a: Address, n: nat, maxChunk: nat)
    requires n > 0 && v == [ChunkView(Rest(n, Max(n, maxChunk)), Max(n, maxChunk), n)] && Took(v, w, a, n, maxChunk)
    ensures var t := Max(n, maxChunk);
            if 2 * n <= t then a == Address(0, n) && w == [ChunkView(Rest(2 * n, t), t, 2 * n)]
            else a == Address(1, 0) && w == [v[0], ChunkView(Rest(n, t), t, n)]
  {
    var t := Max(n, maxChunk);
    assert NoInnerFit(v, n);
    if 2 * n <= t {
      assert TailFit(v, n, 0);
      RestAfter(n, t, n, w[0].free);
    } else {
      assert NoTailFit(v, n) && a == Address(1, 0);
      assert Rest(0, t) == [Block(0, t)];
      RestAfter(0, t, n, w[1].free);
      assert w == [w[0], w[1]];
    }
  }

  // Of two equal ranges the first is given back: an allocator that started empty then picks it again
  // for the same size, whatever its limit on chunks.
  lemma GivenBackIsPicked(u: View, v: View, w: View, a: Address, b: Address, c: Address, n: nat, maxChunk: nat)
    requires n > 0 && Took([], u, a, n, maxChunk) && Took(u, v, b, n, maxChunk) && Freed(v, w, a, n) && Chosen(w, n, c)
    ensures c == a != b
  {
    var t := Max(n, maxChunk);
    FirstTook(u, a, n, maxChunk);
    SecondTook(u, v, b, n, maxChunk);
    if 2 * n < t {
      RestWithFront(n, 2 * n, t, w[0].free);
      assert InnerFit(w, n, 0, 0);
    } else {
      RestWithFront(n, if 2 * n == t then 2 * n else n, t, w[0].free);
      assert NoInnerFit(w, n) && TailFit(w, n, 0);
    }
  }

  function At(offset: nat): HashNode { HashNode(0, 0, 0, Address(0, offset), false) }

  function Addresses(): seq<HashNode> { [At(0), At(0), At(32), At(0)] }

  lemma Apart(t: nat, u: nat)
    requires t < 4 && u < 4 && (t == 2 <==> u != 2)
    ensures ValidConfig(Setting()) && |Addresses()| == |Setting().g.tensors| == 4
    ensures !Overlap(Setting(), Addresses(), t, u)
  {
    hide ReadViewOutput, Setting, ValidConfig, Padded;
    Valid();
    Sizes();
    Nodes();
  }

  // So the plan may put node 3 there: everything that a node reads is safe, and the output is lost.
  lemma ViewOutputOverwritten()
    ensures Planned(Setting(), Addresses()) && |Setting().g.nodes| == 4
    ensures LastWrite(Setting(), Addresses(), 4, Cell(0, 0, 0)) == Written(3)
    ensures LastWriteTo(Setting().g, 4, 0) == Written(1)
  {
    hide ReadViewOutput, Setting, ValidConfig, Overlap, Endangered, Donor;
    var cfg, hash := Setting(), Addresses();
    Valid();
    Sizes();
    Nodes();
    Sources();
    assert |hash| == 4 && forall t :: 0 <= t < 4 ==> hash[t].bufferId == 0;
    forall i, t: nat | 0 <= i < 4 && Endangered(cfg.g, i, t)
      ensures t < 4 && !Overlap(cfg, hash, Root(cfg.g, cfg.g.nodes[i]), t)
    {
      EndangeredIs(i, t);
      Apart(Root(cfg.g, cfg.g.nodes[i]), t);
    }
    assert forall i :: 0 <= i < 4 ==> Safe(cfg, hash, i);
    forall t ensures !Preloaded(cfg.g, t) {}
    hide Safe, Addresses;
    assert Planned(cfg, hash);
    LastWriters();
  }

  lemma LastWriters()
    requires Planned(Setting(), Addresses())
    ensures |Setting().g.nodes| == 4
    ensures LastWrite(Setting(), Addresses(), 4, Cell(0, 0, 0)) == Written(3)
    ensures LastWriteTo(Setting().g, 4, 0) == Written(1)
  {
    hide ReadViewOutput, Setting, ValidConfig, Planned, Src, InRange, WellFormed;
    var cfg, hash := Setting(), Addresses();
    Valid();
    Sizes();
    Nodes();
    Sources();
    hide Padded;
    assert WritesTo(cfg.g, 3, 3) && WritesTo(cfg.g, 1, 0) && !WritesTo(cfg.g, 3, 0) && !WritesTo(cfg.g, 2, 0);
    assert Holds(cfg, hash, 3, Cell(0, 0, 0));
  }

  // while node 2 runs it is node 0, while node 3 runs it is node 2
  lemma EndangeredIs(i: nat, t: nat)
    requires i < 4 && InRange(ReadViewOutput()) && |ReadViewOutput().nodes| == 4 && Endangered(ReadViewOutput(), i, t)
    ensures (i == 2 && t == 0) || (i == 3 && t == 2)
  {
    hide ReadViewOutput, UsesFrom, KeptByView, Src, InRange;
    Nodes();
    Sources();
    Uses();
    FrontNodes(i, t);
  }
}
