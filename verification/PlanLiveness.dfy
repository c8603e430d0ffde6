// Reference counts, deaths and safety of the plan.
module PlanLiveness {
  import opened GraphSpec
  import opened PlanSpec

  // ---- reference counts ----

  // reads of t that are still to come when sources j, j+1, ... of node i have not been processed
  function Remaining(g: Graph, i: nat, j: nat, t: nat): nat
    requires InRange(g) && i <= |g.nodes| && (if i < |g.nodes| then j <= |Src(g, i)| else j == 0)
  {
    if i < |g.nodes| then multiset(Src(g, i)[j..])[t] + UsesFrom(g, i + 1, t) else 0
  }

  predicate ComputedViewOf(g: Graph, v: nat, t: nat) {
    v < |g.tensors| && g.tensors[v].viewSrc == Some(t) && !g.tensors[v].op.NoOp?
  }

  predicate Retired(g: Graph, hash: seq<HashNode>, v: nat)
    requires InRange(g) && v < |hash|
  {
    UsesFrom(g, 0, v) > 0 && hash[v].nChildren == 0
  }

  // views of t that were counted and whose last read is still to come (or that are never read)
  ghost function Unretired(g: Graph, hash: seq<HashNode>, t: nat): set<nat>
    requires InRange(g) && |hash| == |g.tensors|
  {
    set v | v in g.nodes && ComputedViewOf(g, v, t) && !Retired(g, hash, v)
  }

  ghost predicate CountInv(cfg: Config, st: State, i: nat, j: nat) {
    && Shape(cfg, st) && i <= |cfg.g.nodes| && (if i < |cfg.g.nodes| then j <= |Src(cfg.g, i)| else j == 0)
    && (forall t :: 0 <= t < |st.hash| ==> st.hash[t].nChildren == Remaining(cfg.g, i, j, t))
  }

  ghost predicate ViewInv(cfg: Config, st: State) {
    && Shape(cfg, st)
    && (forall t :: 0 <= t < |st.hash| && IsView(cfg.g, t) ==> st.hash[t].nViews == 0)
    && (forall t :: 0 <= t < |st.hash| && Managed(cfg.g, t) ==> st.hash[t].nViews == |Unretired(cfg.g, st.hash, t)|)
  }

  // ---- life and death ----

  // no node from i on reads t directly, and no view of t will be read
  ghost predicate Finished(cfg: Config, st: State, i: nat, t: nat)
    requires Shape(cfg, st) && i <= |cfg.g.nodes| && t < |st.hash|
  {
    UsesFrom(cfg.g, i, t) == 0 && Unretired(cfg.g, st.hash, t) == {} && !cfg.g.tensors[t].output
  }

  // a tensor that had memory and lost it is finished
  ghost predicate DeadInv(cfg: Config, st: State, i: nat) {
    && Shape(cfg, st) && i <= |cfg.g.nodes|
    && (forall t :: t in st.ever && !st.hash[t].owned ==>
          Finished(cfg, st, i, t) && (t in cfg.g.nodes ==> t in cfg.g.nodes[..i]))
  }

  // who has been given memory before node i
  ghost predicate EverInv(cfg: Config, st: State, i: nat) {
    && Shape(cfg, st) && i <= |cfg.g.nodes|
    && (forall t :: t in st.ever ==> Managed(cfg.g, t) && (cfg.g.tensors[t].op.NoOp? || t in cfg.g.nodes[..i]))
    && (forall t :: 0 <= t < |st.hash| && Managed(cfg.g, t) && Placed0(cfg.g, i, t) ==> t in st.ever)
  }

  // leafs, inputs, nodes before i and what they read
  ghost predicate Placed0(g: Graph, i: nat, t: nat)
    requires InRange(g) && i <= |g.nodes|
  {
    t in g.leafs || t in g.nodes[..i] || IsInput(g, t) || (exists m :: 0 <= m < i && t in Src(g, m))
  }

  ghost predicate LifeInv(cfg: Config, st: State, i: nat) {
    MemInv(cfg, st) && ViewInv(cfg, st) && DeadInv(cfg, st, i) && EverInv(cfg, st, i)
  }

  // a view that will be read has not retired
  lemma ReadViewUnretired(cfg: Config, st: State, i: nat, k: nat, s: nat, t: nat)
    requires CountInv(cfg, st, i, 0) && t < |st.hash| && Managed(cfg.g, t)
    requires i <= k < |cfg.g.nodes| && s in Src(cfg.g, k) && s != t && Root(cfg.g, s) == t
    ensures s in Unretired(cfg.g, st.hash, t)
  {
    UsesPositive(cfg.g, i, k, s);
    UsesMonotone(cfg.g, 0, i, s);
    assert Src(cfg.g, i)[0..] == Src(cfg.g, i);
  }

  lemma NeededNotFinished(cfg: Config, st: State, i: nat, t: nat)
    requires CountInv(cfg, st, i, 0) && t < |st.hash| && Managed(cfg.g, t) && Needed(cfg.g, i, t)
    ensures !Finished(cfg, st, i, t)
  {
    var g := cfg.g;
    var k, s :| i <= k < |g.nodes| && s in Src(g, k) && Root(g, s) == t;
    if s == t {
      UsesPositive(g, i, k, s);
    } else {
      ReadViewUnretired(cfg, st, i, k, s, t);
    }
  }

  // a computed view that no node reads is never counted down: it keeps the memory behind it
  ghost predicate KeptByView(g: Graph, t: nat)
    requires InRange(g)
  {
    exists v :: v in g.nodes && ComputedViewOf(g, v, t) && UsesFrom(g, 0, v) == 0
  }

  lemma KeptUnretired(cfg: Config, st: State, t: nat)
    requires Shape(cfg, st) && t < |st.hash| && KeptByView(cfg.g, t)
    ensures Unretired(cfg.g, st.hash, t) != {}
  {
    assert InRange(cfg.g);
    hide WellFormed, InRange;
    var v :| v in cfg.g.nodes && ComputedViewOf(cfg.g, v, t) && UsesFrom(cfg.g, 0, v) == 0;
    assert v in Unretired(cfg.g, st.hash, t);
  }

  // A tensor that is still needed, is an output, or is kept by a view, has not lost its memory.
  lemma NeededOwned(cfg: Config, st: State, i: nat, t: nat)
    requires LifeInv(cfg, st, i) && CountInv(cfg, st, i, 0) && t in st.ever
    requires Needed(cfg.g, i, t) || cfg.g.tensors[t].output || KeptByView(cfg.g, t)
    ensures st.hash[t].owned
  {
    if Needed(cfg.g, i, t) { NeededNotFinished(cfg, st, i, t); }
    if KeptByView(cfg.g, t) { KeptUnretired(cfg, st, t); }
  }

  // ---- safety of the plan ----

  // When node i is computed, t holds data that a node from i on will read, or is an output, or is
  // kept by a view.
  ghost predicate Endangered(g: Graph, i: nat, t: nat)
    requires InRange(g) && i < |g.nodes|
  {
    && t < |g.tensors| && Managed(g, t) && t != Root(g, g.nodes[i])
    && Held(g, i, t) && (Needed(g, i, t) || g.tensors[t].output || KeptByView(g, t))
  }

  // The one exception: node i overwrites a source in place, and reading it once is the last use.
  ghost predicate Donor(cfg: Config, hash: seq<HashNode>, i: nat, t: nat)
    requires ValidConfig(cfg) && |hash| == |cfg.g.tensors| && i < |cfg.g.nodes| && t < |hash|
    requires hash[t].bufferId < |cfg.bufs|
  {
    var g := cfg.g; var n := g.nodes[i];
    && CanInplace(g.tensors[n].op) && Managed(g, n) && UsesFrom(g, i, t) == 1
    && !g.tensors[t].output && !KeptByView(g, t)
    && (forall k, s :: i <= k < |g.nodes| && s in Src(g, k) && Root(g, s) == t ==> k == i && s == t)
    && hash[n].bufferId == hash[t].bufferId && hash[n].addr == hash[t].addr
    && Padded(cfg, Tal(cfg, hash, t), n) <= Padded(cfg, Tal(cfg, hash, t), t)
  }

  ghost predicate Safe(cfg: Config, hash: seq<HashNode>, i: nat)
    requires ValidConfig(cfg) && |hash| == |cfg.g.tensors| && i < |cfg.g.nodes|
    requires forall t :: 0 <= t < |hash| ==> hash[t].bufferId < |cfg.bufs|
  {
    Computes(cfg.g, i) && Managed(cfg.g, Root(cfg.g, cfg.g.nodes[i])) ==>
      forall t :: Endangered(cfg.g, i, t) ==>
        !Overlap(cfg, hash, Root(cfg.g, cfg.g.nodes[i]), t) || Donor(cfg, hash, i, t)
  }

  // leafs and inputs hold their data before the first node runs
  ghost predicate Preloaded(g: Graph, t: nat)
    requires InRange(g)
  {
    t < |g.tensors| && Managed(g, t) && (t in g.leafs || IsInput(g, t))
  }

  // what is loaded for one tensor is not loaded over by another
  ghost predicate LoadsApart(cfg: Config, hash: seq<HashNode>)
    requires ValidConfig(cfg) && |hash| == |cfg.g.tensors|
    requires forall t :: 0 <= t < |hash| ==> hash[t].bufferId < |cfg.bufs|
  {
    forall t, u :: Preloaded(cfg.g, t) && Preloaded(cfg.g, u) && t != u ==> !Overlap(cfg, hash, t, u)
  }

  ghost predicate SafeInv(cfg: Config, st: State, i: nat) {
    && Shape(cfg, st) && i <= |cfg.g.nodes| && LoadsApart(cfg, st.hash)
    && (forall m :: 0 <= m < i ==> Safe(cfg, st.hash, m))
  }

  // addresses that were given out do not change
  ghost predicate Stable(st: State, st': State) {
    && |st'.hash| == |st.hash| && st.ever <= st'.ever
    && (forall t :: t in st.ever ==> t < |st.hash| && st'.hash[t].addr == st.hash[t].addr &&
                                     st'.hash[t].bufferId == st.hash[t].bufferId)
  }

  lemma HeldEver(cfg: Config, st: State, i: nat, m: nat, t: nat)
    requires EverInv(cfg, st, i) && m < i && t < |st.hash| && Managed(cfg.g, t) && Held(cfg.g, m, t)
    ensures t in st.ever
  {
    var g := cfg.g;
    if t in g.nodes[..m] {
      var k :| 0 <= k < m && g.nodes[..m][k] == t;
      assert g.nodes[..i][k] == t;
    }
    assert Placed0(g, i, t);
  }

  lemma RootEver(cfg: Config, st: State, i: nat, m: nat)
    requires EverInv(cfg, st, i) && m < i && Managed(cfg.g, Root(cfg.g, cfg.g.nodes[m]))
    ensures Root(cfg.g, cfg.g.nodes[m]) in st.ever
  {
    var g := cfg.g;
    var r := Root(g, g.nodes[m]);
    if r == g.nodes[m] {
      assert g.nodes[..i][m] == r;
    } else {
      assert Behind(g, m, r);
      if r in g.nodes[..m] {
        var k :| 0 <= k < m && g.nodes[..m][k] == r;
        assert g.nodes[..i][k] == r;
      }
    }
    assert Placed0(g, i, r);
  }

  lemma SafeStable(cfg: Config, st: State, st': State, i: nat)
    requires SafeInv(cfg, st, i) && EverInv(cfg, st, i) && Stable(st, st') && Shape(cfg, st')
    ensures SafeInv(cfg, st', i)
  {
    var g := cfg.g;
    LoadsStable(cfg, st, st', i);
    forall m | 0 <= m < i ensures Safe(cfg, st'.hash, m) {
      assert Safe(cfg, st.hash, m);
      var r := Root(g, g.nodes[m]);
      if Computes(g, m) && Managed(g, r) {
        RootEver(cfg, st, i, m);
        forall t | Endangered(g, m, t)
          ensures !Overlap(cfg, st'.hash, r, t) || Donor(cfg, st'.hash, m, t)
        {
          HeldEver(cfg, st, i, m, t);
          SameRegions(cfg, st, st', r, t);
          SameDonor(cfg, st, st', m, t);
        }
      }
    }
  }

  lemma LoadsStable(cfg: Config, st: State, st': State, i: nat)
    requires Shape(cfg, st) && LoadsApart(cfg, st.hash) && EverInv(cfg, st, i) && Stable(st, st') && Shape(cfg, st')
    ensures LoadsApart(cfg, st'.hash)
  {
    forall t, u | Preloaded(cfg.g, t) && Preloaded(cfg.g, u) && t != u
      ensures !Overlap(cfg, st'.hash, t, u)
    {
      assert Placed0(cfg.g, i, t) && Placed0(cfg.g, i, u);
      SameRegions(cfg, st, st', t, u);
    }
  }

  lemma SameRegions(cfg: Config, st: State, st': State, r: nat, t: nat)
    requires Shape(cfg, st) && Shape(cfg, st') && Stable(st, st') && r in st.ever && t in st.ever
    ensures Overlap(cfg, st'.hash, r, t) ==> Overlap(cfg, st.hash, r, t)
  {
    if Overlap(cfg, st'.hash, r, t) {
      var k, c, x :| InRegion(cfg, st'.hash, r, k, c, x) && InRegion(cfg, st'.hash, t, k, c, x);
      assert InRegion(cfg, st.hash, r, k, c, x) && InRegion(cfg, st.hash, t, k, c, x);
    }
  }

  lemma SameDonor(cfg: Config, st: State, st': State, m: nat, t: nat)
    requires Shape(cfg, st) && Shape(cfg, st') && Stable(st, st') && m < |cfg.g.nodes| && t in st.ever
    requires Root(cfg.g, cfg.g.nodes[m]) in st.ever
    ensures Donor(cfg, st.hash, m, t) ==> Donor(cfg, st'.hash, m, t)
  {
  }
}
