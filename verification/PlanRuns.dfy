// Running a graph: whatever its nodes compute, sharing memory as planned gives every source and
// every output the contents that it has when each tensor has a buffer of its own.
module PlanRuns {
  import opened GraphSpec
  import opened PlanSpec
  import opened PlanLiveness
  import opened PlanExecution

  // Where a byte is: in a chunk of an allocator, or in a buffer that belongs to one tensor.
  datatype Place = InChunk(cell: Cell) | InBuffer(t: nat, x: nat)

  datatype Memory = OwnBuffers | SharedChunks(cfg: Config, hash: seq<HashNode>)

  // A graph and what it means, whatever that is. size: the bytes of each tensor. load: what is loaded
  // into byte x of tensor t. compute: byte x of the result of node i, given the contents of its
  // sources, and for a view the byte that was there. junk: what is in memory that nobody has set.
  datatype Program<!V> = Program(g: Graph, size: seq<nat>, load: (nat, nat) -> V,
    compute: (nat, nat, seq<seq<V>>, Option<V>) -> V, junk: Place -> V)

  ghost predicate Fits<V>(p: Program<V>, mem: Memory) {
    && InRange(p.g) && |p.size| == |p.g.tensors|
    && (mem.SharedChunks? ==>
          && Planned(mem.cfg, mem.hash) && mem.cfg.g == p.g
          && forall t :: 0 <= t < |p.size| && Managed(p.g, t) ==>
               p.size[t] <= Padded(mem.cfg, Tal(mem.cfg, mem.hash, t), t))
  }

  // byte x of tensor t; the allocator leaves tensors with data of their own alone
  ghost function PlaceOf<V>(p: Program<V>, mem: Memory, t: nat, x: nat): Place
    requires Fits(p, mem) && t < |p.size|
  {
    if mem.OwnBuffers? || !Managed(p.g, t) then InBuffer(t, x)
    else InChunk(Cell(Tal(mem.cfg, mem.hash, t), mem.hash[t].addr.chunk, mem.hash[t].addr.offset + x))
  }

  ghost predicate IsAt<V>(p: Program<V>, mem: Memory, t: nat, x: nat, at: Place)
    requires Fits(p, mem)
  {
    t < |p.size| && x < p.size[t] && PlaceOf(p, mem, t, x) == at
  }

  ghost predicate HasLoad(g: Graph, t: nat)
    requires InRange(g)
  {
    Preloaded(g, t) || (t < |g.tensors| && g.tensors[t].external)
  }

  ghost predicate LoadedInto<V>(p: Program<V>, mem: Memory, t: nat, x: nat, at: Place)
    requires Fits(p, mem)
  {
    HasLoad(p.g, t) && IsAt(p, mem, t, x, at)
  }

  ghost function Initial<V>(p: Program<V>, mem: Memory, at: Place): V
    requires Fits(p, mem)
  {
    if exists t, x :: LoadedInto(p, mem, t, x, at) then
      var t, x :| LoadedInto(p, mem, t, x, at);
      p.load(t, x)
    else p.junk(at)
  }

  // the byte at some place before node i runs: nodes run in turn and write where their tensors are
  ghost function Byte<V>(p: Program<V>, mem: Memory, i: nat, at: Place): V
    requires Fits(p, mem) && i <= |p.g.nodes|
    decreases i, 0
  {
    if i == 0 then Initial(p, mem, at)
    else
      var n := p.g.nodes[i - 1];
      if Computes(p.g, i - 1) && exists x :: IsAt(p, mem, Root(p.g, n), x, at) then
        var x :| IsAt(p, mem, Root(p.g, n), x, at);
        p.compute(i - 1, x, Reads(p, mem, i - 1),
          if IsView(p.g, n) then Some(Byte(p, mem, i - 1, at)) else None)
      else Byte(p, mem, i - 1, at)
  }

  ghost function Contents<V>(p: Program<V>, mem: Memory, i: nat, t: nat): seq<V>
    requires Fits(p, mem) && i <= |p.g.nodes| && t < |p.size|
    decreases i, 1
  {
    seq(p.size[t], x requires 0 <= x < p.size[t] => Byte(p, mem, i, PlaceOf(p, mem, t, x)))
  }

  // what node i reads
  ghost function Reads<V>(p: Program<V>, mem: Memory, i: nat): seq<seq<V>>
    requires Fits(p, mem) && i < |p.g.nodes|
    decreases i, 2
  {
    seq(|Src(p.g, i)|, j requires 0 <= j < |Src(p.g, i)| => Contents(p, mem, i, Root(p.g, Src(p.g, i)[j])))
  }

  // r has its data before node i
  ghost predicate HasDataBy(g: Graph, r: nat, i: nat)
    requires InRange(g) && r < |g.tensors|
  {
    Managed(g, r) ==> exists start: nat :: start <= i && HasData(g, r, start)
  }

  // no node reads, or changes through a view, what nobody has set
  ghost predicate Complete(g: Graph)
    requires InRange(g)
  {
    forall i: nat :: i < |g.nodes| && Computes(g, i) ==>
      && (forall s: nat :: s in Src(g, i) ==> HasDataBy(g, Root(g, s), i))
      && (IsView(g, g.nodes[i]) ==> HasDataBy(g, Root(g, g.nodes[i]), i))
  }

  // r has its data before node i, and node q or the end of the run is still to see it
  ghost predicate Matters(g: Graph, r: nat, i: nat, q: nat)
    requires InRange(g)
  {
    r < |g.tensors| && i <= q <= |g.nodes| && HasDataBy(g, r, i) && (Managed(g, r) ==> Wanted(g, r, q))
      && !IsView(g, r)
  }

  ghost predicate SameByte<V>(p: Program<V>, mem: Memory, i: nat, t: nat, x: nat)
    requires Fits(p, mem) && i <= |p.g.nodes| && t < |p.size|
  {
    Byte(p, mem, i, PlaceOf(p, mem, t, x)) == Byte(p, OwnBuffers, i, PlaceOf(p, OwnBuffers, t, x))
  }

  // of all that node m may write, only byte x of r is where byte x of r is
  lemma OneWriter<V>(p: Program<V>, mem: Memory, r: nat, m: nat, q: nat, x: nat, y: nat)
    requires Fits(p, mem) && m < |p.g.nodes| && Computes(p.g, m) && Matters(p.g, r, m + 1, q) && x < p.size[r]
    requires IsAt(p, mem, Root(p.g, p.g.nodes[m]), y, PlaceOf(p, mem, r, x))
    ensures Root(p.g, p.g.nodes[m]) == r && y == x
  {
    var w := Root(p.g, p.g.nodes[m]);
    assert InRange(p.g);
    hide WellFormed, InRange, HasData, Wanted, Computes, Root;
    if mem.SharedChunks? && Managed(p.g, r) {
      var start: nat :| start <= m + 1 && HasData(p.g, r, start);
      var cell := PlaceOf(p, mem, r, x).cell;
      assert Holds(mem.cfg, mem.hash, r, cell) && Holds(mem.cfg, mem.hash, w, cell);
      if start <= m {
        NotOverwritten(mem.cfg, mem.hash, r, start, q, m, cell);
      } else {
        LastStart(p.g, r, m);
      }
    }
  }

  lemma LastStart(g: Graph, r: nat, m: nat)
    requires InRange(g) && HasData(g, r, m + 1)
    ensures m < |g.nodes| && g.nodes[m] == r == Root(g, g.nodes[m]) && Computes(g, m) && !IsView(g, r)
  {
  }

  // what node i does to byte x of r
  lemma OneStep<V>(p: Program<V>, mem: Memory, i: nat, r: nat, q: nat, x: nat)
    requires Fits(p, mem) && i < |p.g.nodes| && Matters(p.g, r, i + 1, q) && x < p.size[r]
    ensures var n, at := p.g.nodes[i], PlaceOf(p, mem, r, x);
            Byte(p, mem, i + 1, at) ==
              if Computes(p.g, i) && Root(p.g, n) == r then
                p.compute(i, x, Reads(p, mem, i), if IsView(p.g, n) then Some(Byte(p, mem, i, at)) else None)
              else Byte(p, mem, i, at)
  {
    var n, at := p.g.nodes[i], PlaceOf(p, mem, r, x);
    assert InRange(p.g);
    hide WellFormed, InRange, Planned, Matters, PlaceOf, Computes, Root;
    if Computes(p.g, i) {
      forall y | IsAt(p, mem, Root(p.g, n), y, at) ensures Root(p.g, n) == r && y == x {
        OneWriter(p, mem, r, i, q, x, y);
      }
      if Root(p.g, n) == r { assert IsAt(p, mem, Root(p.g, n), x, at); }
    }
  }

  lemma SameStart<V>(p: Program<V>, mem: Memory, r: nat, q: nat, x: nat)
    requires Fits(p, mem) && Matters(p.g, r, 0, q) && x < p.size[r]
    ensures Byte(p, mem, 0, PlaceOf(p, mem, r, x)) == p.load(r, x)
  {
    var at := PlaceOf(p, mem, r, x);
    assert InRange(p.g);
    if Managed(p.g, r) { assert HasData(p.g, r, 0); }
    hide WellFormed, InRange, HasData, Wanted, Safe;
    assert LoadedInto(p, mem, r, x, at);
    forall t, y | LoadedInto(p, mem, t, y, at) ensures t == r && y == x {
      LoadedOnce(p, mem, r, x, t, y);
    }
  }

  lemma LoadedOnce<V>(p: Program<V>, mem: Memory, r: nat, x: nat, t: nat, y: nat)
    requires Fits(p, mem) && HasLoad(p.g, r) && !IsView(p.g, r) && x < p.size[r]
    requires LoadedInto(p, mem, t, y, PlaceOf(p, mem, r, x))
    ensures t == r && y == x
  {
    assert InRange(p.g);
    hide WellFormed, InRange, Planned;
    if mem.SharedChunks? && Managed(p.g, r) && t != r {
      LoadedElsewhere(mem.cfg, mem.hash, r, t, PlaceOf(p, mem, r, x).cell);
    }
  }

  lemma LoadedElsewhere(cfg: Config, hash: seq<HashNode>, r: nat, t: nat, cell: Cell)
    requires Planned(cfg, hash) && LoadedAt(cfg, hash, r, cell) && Preloaded(cfg.g, t) && t != r
    ensures !Holds(cfg, hash, t, cell)
  {
    assert InRange(cfg.g);
    hide ValidConfig, WellFormed, InRange, Safe;
    assert !Overlap(cfg, hash, t, r);
  }

  // either r mattered before node i, or node i computes it
  lemma MattersBefore(g: Graph, r: nat, i: nat, q: nat)
    requires InRange(g) && i < |g.nodes| && Matters(g, r, i + 1, q)
    ensures Matters(g, r, i, q) || (Computes(g, i) && g.nodes[i] == r && Root(g, r) == r && !IsView(g, r))
  {
    hide Wanted, HasData;
    if Managed(g, r) {
      var start: nat :| start <= i + 1 && HasData(g, r, start);
      if start == i + 1 { LastStart(g, r, i); }
    }
  }

  // what node i reads matters until node i
  lemma ReadMatters(g: Graph, i: nat, j: nat)
    requires WellFormed(g) && Complete(g) && i < |g.nodes| && Computes(g, i) && j < |Src(g, i)|
    ensures Matters(g, Root(g, Src(g, i)[j]), i, i)
  {
    assert Src(g, i)[j] in Src(g, i);
    hide HasDataBy;
  }

  lemma SameStep<V>(p: Program<V>, mem: Memory, i: nat, r: nat, q: nat, x: nat)
    requires Fits(p, mem) && i < |p.g.nodes| && Matters(p.g, r, i + 1, q) && x < p.size[r]
    requires Computes(p.g, i) ==> Reads(p, mem, i) == Reads(p, OwnBuffers, i)
    requires Matters(p.g, r, i, q) ==> SameByte(p, mem, i, r, x)
    ensures SameByte(p, mem, i + 1, r, x)
  {
    assert InRange(p.g) && Fits(p, OwnBuffers) && r < |p.size|;
    hide WellFormed, InRange, Fits, Computes, Root, IsView, Managed, Byte, Reads, Matters, PlaceOf;
    OneStep(p, mem, i, r, q, x);
    OneStep(p, OwnBuffers, i, r, q, x);
    MattersBefore(p.g, r, i, q);
  }

  lemma SameAtStart<V>(p: Program<V>, mem: Memory, r: nat, q: nat, x: nat)
    requires Fits(p, mem) && Matters(p.g, r, 0, q) && x < p.size[r]
    ensures SameByte(p, mem, 0, r, x)
  {
    assert Fits(p, OwnBuffers);
    hide Fits, Byte, Matters, PlaceOf;
    SameStart(p, mem, r, q, x);
    SameStart(p, OwnBuffers, r, q, x);
  }

  // Before node i every byte that still matters is the same in both runs.
  lemma {:induction false} SameBytes<V>(p: Program<V>, mem: Memory, i: nat, r: nat, q: nat, x: nat)
    requires Fits(p, mem) && WellFormed(p.g) && Complete(p.g) && Matters(p.g, r, i, q) && x < p.size[r]
    ensures SameByte(p, mem, i, r, x)
    decreases i, 0
  {
    assert InRange(p.g) && Fits(p, OwnBuffers) && r < |p.size|;
    hide WellFormed, InRange, Fits, Complete, Computes, Root, Reads, Matters, SameByte;
    if i == 0 {
      SameAtStart(p, mem, r, q, x);
    } else {
      if Computes(p.g, i - 1) { SameReads(p, mem, i - 1); }
      if Matters(p.g, r, i - 1, q) { SameBytes(p, mem, i - 1, r, q, x); }
      SameStep(p, mem, i - 1, r, q, x);
    }
  }

  lemma {:induction false} SameReads<V>(p: Program<V>, mem: Memory, i: nat)
    requires Fits(p, mem) && WellFormed(p.g) && Complete(p.g) && i < |p.g.nodes| && Computes(p.g, i)
    ensures Reads(p, mem, i) == Reads(p, OwnBuffers, i)
    decreases i, 2
  {
    assert InRange(p.g);
    hide WellFormed, InRange, Planned, Complete, Computes, Root, Byte, Matters;
    forall j | 0 <= j < |Src(p.g, i)|
      ensures Contents(p, mem, i, Root(p.g, Src(p.g, i)[j])) == Contents(p, OwnBuffers, i, Root(p.g, Src(p.g, i)[j]))
    {
      ReadMatters(p.g, i, j);
      SameContents(p, mem, i, Root(p.g, Src(p.g, i)[j]), i);
    }
  }

  lemma {:induction false} SameContents<V>(p: Program<V>, mem: Memory, i: nat, r: nat, q: nat)
    requires Fits(p, mem) && WellFormed(p.g) && Complete(p.g) && Matters(p.g, r, i, q)
    ensures r < |p.size| && Contents(p, mem, i, r) == Contents(p, OwnBuffers, i, r)
    decreases i, 1
  {
    assert InRange(p.g) && r < |p.size|;
    hide WellFormed, InRange, Planned, Complete, Byte, Matters;
    var s, o := Contents(p, mem, i, r), Contents(p, OwnBuffers, i, r);
    forall x | 0 <= x < p.size[r] ensures s[x] == o[x] {
      SameBytes(p, mem, i, r, q, x);
    }
  }

  // Whatever the nodes compute: in memory shared as planned every node reads what it would read if
  // each tensor had a buffer of its own.
  lemma PlannedRunReadsTheSame<V>(p: Program<V>, cfg: Config, hash: seq<HashNode>, i: nat)
    requires Fits(p, SharedChunks(cfg, hash)) && Complete(p.g) && i < |p.g.nodes| && Computes(p.g, i)
    ensures Reads(p, SharedChunks(cfg, hash), i) == Reads(p, OwnBuffers, i)
  {
    SameReads(p, SharedChunks(cfg, hash), i);
  }

  // And at the end every output holds what it would hold, as does what is behind an output that is
  // a view, under the condition of OutputsSurvive.
  lemma PlannedRunResults<V>(p: Program<V>, cfg: Config, hash: seq<HashNode>, r: nat)
    requires Fits(p, SharedChunks(cfg, hash)) && Complete(p.g) && r < |p.size| && !IsView(p.g, r)
    requires HasDataBy(p.g, r, |p.g.nodes|)
    requires p.g.tensors[r].output || p.g.tensors[r].external || KeptByView(p.g, r)
    ensures Contents(p, SharedChunks(cfg, hash), |p.g.nodes|, r) == Contents(p, OwnBuffers, |p.g.nodes|, r)
  {
    SameContents(p, SharedChunks(cfg, hash), |p.g.nodes|, r, |p.g.nodes|);
  }
}
