// What a plan is for: running the graph in shared memory reads what running it with a buffer of
// its own for every tensor would read. Memory is seen through its last writers.
module PlanExecution {
  import opened GraphSpec
  import opened PlanSpec
  import opened PlanLiveness
  import opened PlanSteps

  datatype Cell = Cell(k: nat, chunk: nat, x: nat)

  // where the contents of a byte come from
  datatype Origin = Nowhere | Loaded(t: nat) | Written(node: nat)

  ghost predicate Planned(cfg: Config, hash: seq<HashNode>) {
    && ValidConfig(cfg) && |hash| == |cfg.g.tensors|
    && (forall t :: 0 <= t < |hash| ==> hash[t].bufferId < |cfg.bufs|)
    && LoadsApart(cfg, hash)
    && (forall i :: 0 <= i < |cfg.g.nodes| ==> Safe(cfg, hash, i))
  }

  ghost predicate Holds(cfg: Config, hash: seq<HashNode>, t: nat, cell: Cell)
    requires Planned(cfg, hash) && t < |hash|
  {
    InRegion(cfg, hash, t, cell.k, cell.chunk, cell.x)
  }

  // the tensor whose memory node m writes, if the allocator manages it
  ghost predicate WritesTo(g: Graph, m: nat, r: nat)
    requires InRange(g) && m < |g.nodes|
  {
    Computes(g, m) && Root(g, g.nodes[m]) == r && Managed(g, r)
  }

  ghost predicate LoadedAt(cfg: Config, hash: seq<HashNode>, t: nat, cell: Cell)
    requires Planned(cfg, hash)
  {
    Preloaded(cfg.g, t) && Holds(cfg, hash, t, cell)
  }

  // shared memory: the last node before i that wrote a cell, else a tensor that was loaded there
  ghost function LastWrite(cfg: Config, hash: seq<HashNode>, i: nat, cell: Cell): Origin
    requires Planned(cfg, hash) && i <= |cfg.g.nodes|
  {
    if i == 0 then
      if exists t :: LoadedAt(cfg, hash, t, cell) then
        var t :| LoadedAt(cfg, hash, t, cell);
        Loaded(t)
      else Nowhere
    else
      var r := Root(cfg.g, cfg.g.nodes[i - 1]);
      if WritesTo(cfg.g, i - 1, r) && Holds(cfg, hash, r, cell) then Written(i - 1)
      else LastWrite(cfg, hash, i - 1, cell)
  }

  // a buffer for every tensor: the last node before i that wrote to r, else what was loaded for r
  ghost function LastWriteTo(g: Graph, i: nat, r: nat): Origin
    requires InRange(g) && i <= |g.nodes|
  {
    if i == 0 then
      if Preloaded(g, r) then Loaded(r) else Nowhere
    else if WritesTo(g, i - 1, r) then Written(i - 1)
    else LastWriteTo(g, i - 1, r)
  }

  // r holds data from before node start on: leafs and inputs always, a node once it is computed
  ghost predicate HasData(g: Graph, r: nat, start: nat)
    requires InRange(g)
  {
    && r < |g.tensors| && Managed(g, r) && start <= |g.nodes|
    && ((start == 0 && Preloaded(g, r)) ||
        (start > 0 && g.nodes[start - 1] == r && Computes(g, start - 1)))
  }

  // r keeps mattering: node i reads it, or it is an output, or a view of it that no node reads keeps it
  ghost predicate Wanted(g: Graph, r: nat, i: nat)
    requires InRange(g) && r < |g.tensors|
  {
    || g.tensors[r].output || KeptByView(g, r)
    || (i < |g.nodes| && exists s :: s in Src(g, i) && Root(g, s) == r)
  }

  // Between getting its data and its last reader, a tensor is written only by nodes that mean it.
  lemma NotOverwritten(cfg: Config, hash: seq<HashNode>, r: nat, start: nat, i: nat, m: nat, cell: Cell)
    requires Planned(cfg, hash) && HasData(cfg.g, r, start) && Wanted(cfg.g, r, i)
    requires start <= m < i <= |cfg.g.nodes| && Holds(cfg, hash, r, cell)
    ensures WritesTo(cfg.g, m, Root(cfg.g, cfg.g.nodes[m])) && Holds(cfg, hash, Root(cfg.g, cfg.g.nodes[m]), cell) ==>
              Root(cfg.g, cfg.g.nodes[m]) == r
  {
    var g := cfg.g;
    var w := Root(g, g.nodes[m]);
    assert InRange(g) && w < |hash|;
    hide WellFormed, ValidConfig, InRange, KeptByView, HasData;
    if WritesTo(g, m, w) && w != r {
      HeldBy(g, r, start, m);
      NeededBy(g, r, i, m);
      assert Endangered(g, m, r);
      hide Endangered, Needed, Held;
      NoDonor(cfg, hash, r, i, m);
      hide Donor, Wanted;
      assert Safe(cfg, hash, m);
      assert !Overlap(cfg, hash, w, r);
    }
  }

  lemma HeldBy(g: Graph, r: nat, start: nat, m: nat)
    requires InRange(g) && HasData(g, r, start) && start <= m < |g.nodes|
    ensures r < |g.tensors| && Managed(g, r) && Held(g, m, r)
  {
    if start > 0 { assert g.nodes[..m][start - 1] == r; }
  }

  lemma NeededBy(g: Graph, r: nat, i: nat, m: nat)
    requires InRange(g) && m < i <= |g.nodes| && r < |g.tensors| && Wanted(g, r, i)
    ensures Needed(g, m, r) || g.tensors[r].output || KeptByView(g, r)
  {
    hide KeptByView;
  }

  // a source taken over in place is not wanted any more
  lemma NoDonor(cfg: Config, hash: seq<HashNode>, r: nat, i: nat, m: nat)
    requires Planned(cfg, hash) && m < i <= |cfg.g.nodes| && r < |hash| && Wanted(cfg.g, r, i)
    ensures !Donor(cfg, hash, m, r)
  {
    hide WellFormed, ValidConfig, KeptByView, Safe;
  }

  // before the first node only r can have been loaded into a cell of r
  lemma LoadedAlone(cfg: Config, hash: seq<HashNode>, r: nat, cell: Cell)
    requires Planned(cfg, hash) && LoadedAt(cfg, hash, r, cell)
    ensures LastWrite(cfg, hash, 0, cell) == LastWriteTo(cfg.g, 0, r) == Loaded(r)
  {
    assert InRange(cfg.g);
    hide ValidConfig, WellFormed, InRange, Safe;
    forall t | Preloaded(cfg.g, t) && t != r ensures !LoadedAt(cfg, hash, t, cell) {
      assert !Overlap(cfg, hash, t, r);
    }
  }

  // Every cell of r holds what the last node that wrote to r put there, or what was loaded for r.
  lemma {:induction false} CellsAgree(cfg: Config, hash: seq<HashNode>, r: nat, start: nat, i: nat, j: nat, cell: Cell)
    requires Planned(cfg, hash) && HasData(cfg.g, r, start) && Wanted(cfg.g, r, i)
    requires start <= j <= i <= |cfg.g.nodes| && Holds(cfg, hash, r, cell)
    ensures LastWrite(cfg, hash, j, cell) == LastWriteTo(cfg.g, j, r) != Nowhere
  {
    assert Planned(cfg, hash) && InRange(cfg.g);
    assert start == 0 ==> LoadedAt(cfg, hash, r, cell);
    assert start > 0 ==> WritesTo(cfg.g, start - 1, r) && Root(cfg.g, cfg.g.nodes[start - 1]) == r;
    hide Planned, InRange, HasData, Wanted, Holds, WritesTo, LoadedAt;
    if j > start {
      NotOverwritten(cfg, hash, r, start, i, j - 1, cell);
      CellsAgree(cfg, hash, r, start, i, j - 1, cell);
    } else if start == 0 {
      LoadedAlone(cfg, hash, r, cell);
    }
  }

  // When node i runs, every byte of every source it reads holds the source's own data: written by
  // the node that last wrote to the source, or loaded for it and for no other tensor.
  lemma ReadsSeeOwnData(cfg: Config, hash: seq<HashNode>, i: nat, s: nat, start: nat, cell: Cell)
    requires Planned(cfg, hash) && i < |cfg.g.nodes| && s in Src(cfg.g, i)
    requires HasData(cfg.g, Root(cfg.g, s), start) && start <= i
    requires Holds(cfg, hash, Root(cfg.g, s), cell)
    ensures LastWrite(cfg, hash, i, cell) == LastWriteTo(cfg.g, i, Root(cfg.g, s)) != Nowhere
  {
    CellsAgree(cfg, hash, Root(cfg.g, s), start, i, i, cell);
  }

  // When the graph has run, every byte of an output holds the output's own data, and so does every
  // byte behind an output that is a view, if the tensor behind it is an output itself or some
  // computed view of it is never read.
  lemma OutputsSurvive(cfg: Config, hash: seq<HashNode>, r: nat, start: nat, cell: Cell)
    requires Planned(cfg, hash) && HasData(cfg.g, r, start)
    requires cfg.g.tensors[r].output || KeptByView(cfg.g, r)
    requires Holds(cfg, hash, r, cell)
    ensures LastWrite(cfg, hash, |cfg.g.nodes|, cell) == LastWriteTo(cfg.g, |cfg.g.nodes|, r) != Nowhere
  {
    CellsAgree(cfg, hash, r, start, |cfg.g.nodes|, |cfg.g.nodes|, cell);
  }

  // The planner's final state is such a plan.
  lemma ReadyIsPlanned(cfg: Config, st: State)
    requires Ready(cfg, st, |cfg.g.nodes|)
    ensures Planned(cfg, st.hash)
  {
  }

  // The view of a parent never owns memory, so the branch that would reuse it never runs.
  lemma ViewsOwnNothing(cfg: Config, st: State, i: nat, t: nat)
    requires Ready(cfg, st, i) && t < |st.hash| && IsView(cfg.g, t)
    ensures !st.hash[t].owned
  {
    assert st.hash[t].owned ==> Owns(cfg, st, t);
  }
}
