// Every step of the planner keeps the invariants.
module PlanSteps {
  import opened ChunkSpec
  import opened GraphSpec
  import opened PlanSpec
  import opened PlanLiveness

  // at the start of iteration i of the main loop
  ghost predicate Ready(cfg: Config, st: State, i: nat) {
    LifeInv(cfg, st, i) && CountInv(cfg, st, i, 0) && SafeInv(cfg, st, i)
  }

  // node i has its memory, its sources before j have been processed
  ghost predicate Updating(cfg: Config, st: State, i: nat, j: nat) {
    i < |cfg.g.nodes| && LifeInv(cfg, st, i + 1) && CountInv(cfg, st, i, j) && SafeInv(cfg, st, i + 1)
  }

  // t has not lost memory that it had
  ghost predicate NotDead(cfg: Config, st: State, t: nat)
    requires Shape(cfg, st) && t < |st.hash|
  {
    t in st.ever ==> st.hash[t].owned
  }

  // ---- counts do not see owners, owners do not see counts ----

  ghost predicate SameCounts(h: seq<HashNode>, h': seq<HashNode>) {
    && |h'| == |h|
    && (forall t :: 0 <= t < |h| ==> h'[t].nChildren == h[t].nChildren && h'[t].nViews == h[t].nViews)
  }

  lemma SameUnretired(g: Graph, h: seq<HashNode>, h': seq<HashNode>, t: nat)
    requires InRange(g) && |h| == |g.tensors| && SameCounts(h, h')
    ensures Unretired(g, h', t) == Unretired(g, h, t)
  {
  }

  lemma CountsKept(cfg: Config, st: State, st': State, i: nat, j: nat)
    requires CountInv(cfg, st, i, j) && ViewInv(cfg, st)
    requires Shape(cfg, st') && SameCounts(st.hash, st'.hash)
    ensures CountInv(cfg, st', i, j) && ViewInv(cfg, st')
  {
    assert InRange(cfg.g);
    hide WellFormed, InRange;
    forall t | 0 <= t < |st'.hash| && Managed(cfg.g, t)
      ensures st'.hash[t].nViews == |Unretired(cfg.g, st'.hash, t)|
    {
      assert st.hash[t].nViews == |Unretired(cfg.g, st.hash, t)|;
      SameUnretired(cfg.g, st.hash, st'.hash, t);
    }
  }

  // ---- a tensor gets fresh memory ----

  ghost predicate PlacedIn(cfg: Config, st: State, st': State, t: nat, bufferId: nat) {
    && Shape(cfg, st) && t < |st.hash| && bufferId < |cfg.bufs|
    && (exists a :: PlacedAt(cfg, st, st', t, bufferId, a))
  }

  ghost predicate PlacedAt(cfg: Config, st: State, st': State, t: nat, bufferId: nat, a: Address)
    requires Shape(cfg, st) && t < |st.hash| && bufferId < |cfg.bufs|
  {
    var k := cfg.bufs[bufferId];
    && a !in st.lives[k] && LiveDisjoint(st.lives[k][a := Padded(cfg, k, t)])
    && st' == Placed(st, t, bufferId, k, a, Padded(cfg, k, t))
  }

  // what every way of giving t memory has in common
  ghost predicate Gains(cfg: Config, st: State, st': State, t: nat) {
    && Shape(cfg, st) && Shape(cfg, st') && t < |st.hash|
    && SameCounts(st.hash, st'.hash)
    && st'.ever == st.ever + {t} && Stable(st, st') && st'.hash[t].owned
  }

  lemma PlacedGains(cfg: Config, st: State, st': State, t: nat, bufferId: nat)
    requires MemInv(cfg, st) && t !in st.ever && t < |st.hash| && Managed(cfg.g, t)
    requires PlacedIn(cfg, st, st', t, bufferId)
    ensures Gains(cfg, st, st', t) && MemInv(cfg, st')
    ensures forall u :: 0 <= u < |st.hash| && u != t ==> st'.hash[u].owned == st.hash[u].owned
  {
    var a :| PlacedAt(cfg, st, st', t, bufferId, a);
    assert st.hash[t].owned ==> Owns(cfg, st, t);
    PlacedKeeps(cfg, st, t, bufferId, cfg.bufs[bufferId], a);
  }

  lemma DeadKept(cfg: Config, st: State, st': State, t: nat, i: nat)
    requires DeadInv(cfg, st, i) && Gains(cfg, st, st', t)
    requires forall u :: 0 <= u < |st.hash| && u != t ==> st'.hash[u].owned == st.hash[u].owned
    ensures DeadInv(cfg, st', i)
  {
    assert InRange(cfg.g);
    hide WellFormed, InRange;
    forall u | u in st'.ever && !st'.hash[u].owned
      ensures Finished(cfg, st', i, u) && (u in cfg.g.nodes ==> u in cfg.g.nodes[..i])
    {
      assert u in st.ever && !st.hash[u].owned;
      SameUnretired(cfg.g, st.hash, st'.hash, u);
    }
  }

  lemma EverKept(cfg: Config, st: State, st': State, t: nat, i: nat)
    requires EverInv(cfg, st, i) && Gains(cfg, st, st', t)
    requires Managed(cfg.g, t) && cfg.g.tensors[t].op.NoOp?
    ensures EverInv(cfg, st', i)
  {
  }

  // Leafs, inputs and late sources get memory without disturbing anything.
  lemma SourcePlaced(cfg: Config, st: State, st': State, t: nat, bufferId: nat, i: nat)
    requires Ready(cfg, st, i) && t !in st.ever && t < |st.hash| && Managed(cfg.g, t)
    requires cfg.g.tensors[t].op.NoOp?
    requires PlacedIn(cfg, st, st', t, bufferId)
    ensures Ready(cfg, st', i)
  {
    assert InRange(cfg.g);
    hide WellFormed, InRange;
    PlacedGains(cfg, st, st', t, bufferId);
    CountsKept(cfg, st, st', i, 0);
    DeadKept(cfg, st, st', t, i);
    EverKept(cfg, st, st', t, i);
    SafeStable(cfg, st, st', i);
  }

  // ---- node i gets its memory ----

  lemma DeadLater(cfg: Config, st: State, i: nat)
    requires DeadInv(cfg, st, i) && i < |cfg.g.nodes|
    ensures DeadInv(cfg, st, i + 1)
  {
    forall t | t in st.ever && !st.hash[t].owned
      ensures Finished(cfg, st, i + 1, t) && (t in cfg.g.nodes ==> t in cfg.g.nodes[..i + 1])
    {
      assert Finished(cfg, st, i, t);
      UsesMonotone(cfg.g, i, i + 1, t);
      if t in cfg.g.nodes {
        var k :| 0 <= k < i && cfg.g.nodes[..i][k] == t;
        assert cfg.g.nodes[..i + 1][k] == t;
      }
    }
  }

  ghost predicate SourcesHeld(cfg: Config, st: State, i: nat)
    requires Shape(cfg, st) && i < |cfg.g.nodes|
  {
    forall t :: t in Src(cfg.g, i) && Managed(cfg.g, t) ==> t in st.ever
  }

  lemma EverNext(cfg: Config, st: State, st': State, i: nat)
    requires EverInv(cfg, st, i) && i < |cfg.g.nodes| && SourcesHeld(cfg, st, i)
    requires Shape(cfg, st') && st.ever <= st'.ever <= st.ever + {cfg.g.nodes[i]}
    requires Managed(cfg.g, cfg.g.nodes[i]) ==> cfg.g.nodes[i] in st'.ever
    requires cfg.g.nodes[i] in st'.ever ==> Managed(cfg.g, cfg.g.nodes[i])
    ensures EverInv(cfg, st', i + 1)
  {
    var g := cfg.g;
    assert g.nodes[..i + 1] == g.nodes[..i] + [g.nodes[i]];
    forall t | 0 <= t < |st'.hash| && Managed(g, t) && Placed0(g, i + 1, t)
      ensures t in st'.ever
    {
      if t != g.nodes[i] && t !in Src(g, i) {
        if m :| 0 <= m < i + 1 && t in Src(g, m) { assert m < i; }
        assert Placed0(g, i, t);
      }
    }
  }

  lemma EndangeredKnown(cfg: Config, st: State, i: nat, t: nat)
    requires EverInv(cfg, st, i) && i < |cfg.g.nodes| && SourcesHeld(cfg, st, i)
    requires Endangered(cfg.g, i, t)
    ensures t in st.ever
  {
    if m :| 0 <= m <= i && t in Src(cfg.g, m) {
      if m < i { assert Placed0(cfg.g, i, t); }
    } else {
      assert Placed0(cfg.g, i, t);
    }
  }

  lemma NodeSafe(cfg: Config, st: State, i: nat)
    requires MemInv(cfg, st) && i < |cfg.g.nodes|
    requires Managed(cfg.g, Root(cfg.g, cfg.g.nodes[i])) ==> st.hash[Root(cfg.g, cfg.g.nodes[i])].owned
    requires forall t: nat :: Endangered(cfg.g, i, t) ==> st.hash[t].owned || Donor(cfg, st.hash, i, t)
    ensures Safe(cfg, st.hash, i)
  {
    assert InRange(cfg.g);
    hide WellFormed, InRange, Overlap, Donor;
    var r := Root(cfg.g, cfg.g.nodes[i]);
    if Managed(cfg.g, r) {
      forall t: nat | Endangered(cfg.g, i, t)
        ensures !Overlap(cfg, st.hash, r, t) || Donor(cfg, st.hash, i, t)
      {
        if st.hash[t].owned { AllocatedApart(cfg, st, r, t); }
      }
    }
  }

  lemma SafeNext(cfg: Config, st: State, i: nat)
    requires SafeInv(cfg, st, i) && i < |cfg.g.nodes| && Safe(cfg, st.hash, i)
    ensures SafeInv(cfg, st, i + 1)
  {
  }

  lemma NodePlaced(cfg: Config, st: State, st': State, i: nat, bufferId: nat)
    requires Ready(cfg, st, i) && i < |cfg.g.nodes| && SourcesHeld(cfg, st, i)
    requires Managed(cfg.g, cfg.g.nodes[i]) && cfg.g.nodes[i] !in st.ever
    requires PlacedIn(cfg, st, st', cfg.g.nodes[i], bufferId)
    ensures Updating(cfg, st', i, 0)
  {
    assert InRange(cfg.g);
    hide WellFormed, InRange, ViewInv, CountInv, DeadInv, EverInv, SafeInv, Safe, Donor, Overlap, PlacedIn,
         Needed, Held;
    var n := cfg.g.nodes[i];
    PlacedGains(cfg, st, st', n, bufferId);
    CountsKept(cfg, st, st', i, 0);
    DeadKept(cfg, st, st', n, i);
    DeadLater(cfg, st', i);
    EverNext(cfg, st, st', i);
    SafeStable(cfg, st, st', i);
    forall t: nat | Endangered(cfg.g, i, t) ensures st'.hash[t].owned {
      EndangeredKnown(cfg, st, i, t);
      NeededOwned(cfg, st, i, t);
    }
    NodeSafe(cfg, st', i);
    SafeNext(cfg, st', i);
  }

  // ---- node i needs no memory of its own ----

  lemma {:induction false} NoEarlyUses(g: Graph, k: nat, i: nat)
    requires WellFormed(g) && k <= i < |g.nodes|
    ensures UsesFrom(g, k, g.nodes[i]) == UsesFrom(g, i, g.nodes[i])
    decreases i - k
  {
    if k < i {
      assert g.nodes[i] !in Src(g, k);
      NoEarlyUses(g, k + 1, i);
    }
  }

  // the tensor behind a computed view is alive while the view is being computed
  lemma ViewRootOwned(cfg: Config, st: State, i: nat)
    requires LifeInv(cfg, st, i) && CountInv(cfg, st, i, 0) && i < |cfg.g.nodes|
    requires Computes(cfg.g, i) && IsView(cfg.g, cfg.g.nodes[i])
    requires Managed(cfg.g, Root(cfg.g, cfg.g.nodes[i]))
    ensures st.hash[Root(cfg.g, cfg.g.nodes[i])].owned
  {
    var g := cfg.g;
    var n, r := g.nodes[i], Root(g, g.nodes[i]);
    assert Behind(g, i, r);
    assert Placed0(g, i, r);
    NoEarlyUses(g, 0, i);
    assert Src(g, i)[0..] == Src(g, i);
    assert n in Unretired(g, st.hash, r);
  }

  lemma NodeSkipped(cfg: Config, st: State, i: nat)
    requires Ready(cfg, st, i) && i < |cfg.g.nodes| && SourcesHeld(cfg, st, i)
    requires !Managed(cfg.g, cfg.g.nodes[i]) || st.hash[cfg.g.nodes[i]].owned
    ensures Updating(cfg, st, i, 0)
  {
    var g := cfg.g;
    var n := g.nodes[i];
    assert st.hash[n].owned ==> Owns(cfg, st, n);
    DeadLater(cfg, st, i);
    EverNext(cfg, st, st, i);
    if Computes(g, i) && Managed(g, Root(g, n)) {
      ComputedNew(cfg, st, i);
      ViewRootOwned(cfg, st, i);
      hide WellFormed, InRange, MemInv, ViewInv, CountInv, DeadInv, EverInv, SafeInv, Safe, Donor, Overlap,
           Needed, Held;
      forall t: nat | Endangered(g, i, t) ensures st.hash[t].owned {
        EndangeredKnown(cfg, st, i, t);
        NeededOwned(cfg, st, i, t);
      }
      NodeSafe(cfg, st, i);
    }
    SafeNext(cfg, st, i);
  }

  // a managed node with an operation has no memory before its turn
  lemma ComputedNew(cfg: Config, st: State, i: nat)
    requires EverInv(cfg, st, i) && i < |cfg.g.nodes| && Computes(cfg.g, i)
    ensures cfg.g.nodes[i] !in st.ever
  {
    var g := cfg.g;
    forall k | 0 <= k < i ensures g.nodes[..i][k] != g.nodes[i] {
      assert g.nodes[..i][k] == g.nodes[k];
    }
  }

  // ---- node i takes over a source in place ----

  ghost predicate Reusable(cfg: Config, st: State, n: nat, p: nat)
    requires Shape(cfg, st) && n < |st.hash|
  {
    && p < |st.hash| && CanInplace(cfg.g.tensors[n].op) && p in cfg.g.tensors[n].src
    && st.hash[p].owned && !cfg.g.tensors[p].output
    && cfg.g.tensors[n].layout == cfg.g.tensors[p].layout
    && st.hash[p].nChildren == 1 && st.hash[p].nViews == 0
  }

  ghost predicate TakenOver(cfg: Config, st: State, st': State, n: nat, p: nat)
    requires Shape(cfg, st) && n < |st.hash| && p < |st.hash|
  {
    var k := Tal(cfg, st.hash, p);
    && Padded(cfg, k, n) <= Padded(cfg, k, p)
    && st' == Inherited(st, n, p, k, Padded(cfg, k, n))
  }

  lemma InheritedGains(cfg: Config, st: State, st': State, n: nat, p: nat)
    requires MemInv(cfg, st) && n !in st.ever && n < |st.hash| && p < |st.hash| && n != p && Managed(cfg.g, n)
    requires st.hash[p].owned && TakenOver(cfg, st, st', n, p)
    ensures Gains(cfg, st, st', n) && p in st.ever
  {
    hide WellFormed;
    assert Owns(cfg, st, p);
    hide MemInv, Owns;
  }

  lemma InheritedMem(cfg: Config, st: State, st': State, n: nat, p: nat)
    requires MemInv(cfg, st) && n !in st.ever && n < |st.hash| && p < |st.hash| && n != p && Managed(cfg.g, n)
    requires st.hash[p].owned && TakenOver(cfg, st, st', n, p)
    ensures MemInv(cfg, st')
  {
    hide WellFormed;
    assert st.hash[n].owned ==> Owns(cfg, st, n);
    InheritedKeeps(cfg, st, n, p);
  }

  // with one child and no views left, node i's direct read is the last use of p
  lemma LastUse(cfg: Config, st: State, i: nat, p: nat)
    requires LifeInv(cfg, st, i) && CountInv(cfg, st, i, 0) && i < |cfg.g.nodes|
    requires Reusable(cfg, st, cfg.g.nodes[i], p)
    ensures UsesFrom(cfg.g, i, p) == 1 && UsesFrom(cfg.g, i + 1, p) == 0 && Unretired(cfg.g, st.hash, p) == {}
    ensures forall k, s :: i <= k < |cfg.g.nodes| && s in Src(cfg.g, k) && Root(cfg.g, s) == p ==> k == i && s == p
  {
    var g := cfg.g;
    assert Owns(cfg, st, p);
    assert Src(g, i)[0..] == Src(g, i);
    assert multiset(Src(g, i))[p] > 0;
    forall k, s | i <= k < |g.nodes| && s in Src(g, k) && Root(g, s) == p
      ensures k == i && s == p
    {
      if s != p { ReadViewUnretired(cfg, st, i, k, s, p); }
      if k > i { UsesPositive(g, i + 1, k, s); }
    }
  }

  lemma DeadInherited(cfg: Config, st: State, st': State, i: nat, n: nat, p: nat)
    requires DeadInv(cfg, st, i) && i < |cfg.g.nodes| && n == cfg.g.nodes[i] && n < |st.hash| && p < |st.hash|
    requires Gains(cfg, st, st', n) && TakenOver(cfg, st, st', n, p)
    requires p in Src(cfg.g, i) && !cfg.g.tensors[p].output
    requires UsesFrom(cfg.g, i + 1, p) == 0 && Unretired(cfg.g, st.hash, p) == {}
    ensures DeadInv(cfg, st', i + 1)
  {
    DeadLater(cfg, st, i);
    var g := cfg.g;
    forall u | u in st'.ever && !st'.hash[u].owned
      ensures Finished(cfg, st', i + 1, u) && (u in g.nodes ==> u in g.nodes[..i + 1])
    {
      SameUnretired(g, st.hash, st'.hash, u);
      if u != p {
        assert u in st.ever && !st.hash[u].owned;
      } else if p in g.nodes {
        var k :| 0 <= k < |g.nodes| && g.nodes[k] == p;
        assert g.nodes[..i + 1][k] == p;
      }
    }
  }

  lemma DonorSafe(cfg: Config, st: State, st': State, i: nat, n: nat, p: nat)
    requires Shape(cfg, st) && Shape(cfg, st') && i < |cfg.g.nodes| && n == cfg.g.nodes[i] && p < |st.hash| && n != p
    requires TakenOver(cfg, st, st', n, p) && CanInplace(cfg.g.tensors[n].op) && Managed(cfg.g, n)
    requires !cfg.g.tensors[p].output && !KeptByView(cfg.g, p) && UsesFrom(cfg.g, i, p) == 1
    requires forall k, s :: i <= k < |cfg.g.nodes| && s in Src(cfg.g, k) && Root(cfg.g, s) == p ==> k == i && s == p
    ensures Donor(cfg, st'.hash, i, p)
  {
  }

  // node i has taken over p: counts, owners and deaths
  lemma InheritedLife(cfg: Config, st: State, st': State, i: nat, p: nat)
    requires LifeInv(cfg, st, i) && CountInv(cfg, st, i, 0) && i < |cfg.g.nodes| && SourcesHeld(cfg, st, i)
    requires Managed(cfg.g, cfg.g.nodes[i]) && cfg.g.nodes[i] !in st.ever && cfg.g.nodes[i] != p
    requires Reusable(cfg, st, cfg.g.nodes[i], p) && TakenOver(cfg, st, st', cfg.g.nodes[i], p)
    ensures LifeInv(cfg, st', i + 1) && CountInv(cfg, st', i, 0)
  {
    assert InRange(cfg.g);
    hide WellFormed, InRange, ValidConfig, ViewInv, CountInv, DeadInv, EverInv, MemInv;
    var n := cfg.g.nodes[i];
    LastUse(cfg, st, i, p);
    InheritedMem(cfg, st, st', n, p);
    InheritedGains(cfg, st, st', n, p);
    hide TakenOver;
    CountsKept(cfg, st, st', i, 0);
    DeadInherited(cfg, st, st', i, n, p);
    EverNext(cfg, st, st', i);
  }

  // node i has taken over p: nothing that is still needed is overwritten
  lemma InheritedSafe(cfg: Config, st: State, st': State, i: nat, p: nat)
    requires Ready(cfg, st, i) && i < |cfg.g.nodes| && SourcesHeld(cfg, st, i) && MemInv(cfg, st')
    requires Managed(cfg.g, cfg.g.nodes[i]) && cfg.g.nodes[i] !in st.ever && cfg.g.nodes[i] != p
    requires Reusable(cfg, st, cfg.g.nodes[i], p) && TakenOver(cfg, st, st', cfg.g.nodes[i], p)
    ensures SafeInv(cfg, st', i + 1)
  {
    assert InRange(cfg.g);
    hide WellFormed, InRange, ValidConfig, ViewInv, CountInv, DeadInv, EverInv, MemInv, SafeInv, Safe, Donor,
         Needed, Held;
    var n := cfg.g.nodes[i];
    LastUse(cfg, st, i, p);
    InheritedGains(cfg, st, st', n, p);
    SafeStable(cfg, st, st', i);
    if KeptByView(cfg.g, p) { KeptUnretired(cfg, st, p); }
    DonorSafe(cfg, st, st', i, n, p);
    InheritedOwners(cfg, st, st', i, n, p);
    NodeSafe(cfg, st', i);
    SafeNext(cfg, st', i);
  }

  lemma InheritedOwners(cfg: Config, st: State, st': State, i: nat, n: nat, p: nat)
    requires Ready(cfg, st, i) && i < |cfg.g.nodes| && n == cfg.g.nodes[i] && SourcesHeld(cfg, st, i)
    requires n < |st.hash| && p < |st.hash| && n != p && TakenOver(cfg, st, st', n, p) && Donor(cfg, st'.hash, i, p)
    ensures forall t: nat :: Endangered(cfg.g, i, t) ==> st'.hash[t].owned || Donor(cfg, st'.hash, i, t)
  {
    assert InRange(cfg.g);
    hide WellFormed, InRange, ValidConfig, ViewInv, CountInv, DeadInv, EverInv, MemInv, SafeInv, Donor, Endangered;
    forall t: nat | Endangered(cfg.g, i, t) ensures st'.hash[t].owned || Donor(cfg, st'.hash, i, t) {
      EndangeredKnown(cfg, st, i, t);
      NeededOwned(cfg, st, i, t);
    }
  }

  lemma NodeInherited(cfg: Config, st: State, st': State, i: nat, p: nat)
    requires Ready(cfg, st, i) && i < |cfg.g.nodes| && SourcesHeld(cfg, st, i)
    requires Managed(cfg.g, cfg.g.nodes[i]) && cfg.g.nodes[i] !in st.ever
    requires Reusable(cfg, st, cfg.g.nodes[i], p) && TakenOver(cfg, st, st', cfg.g.nodes[i], p)
    ensures Updating(cfg, st', i, 0)
  {
    assert p in Src(cfg.g, i) && cfg.g.nodes[i] != p;
    hide WellFormed, CountInv, MemInv, ViewInv, DeadInv, EverInv, SafeInv, Reusable, TakenOver;
    InheritedLife(cfg, st, st', i, p);
    InheritedSafe(cfg, st, st', i, p);
  }
}
