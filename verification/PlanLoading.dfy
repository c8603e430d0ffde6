// Before the main loop: leafs and inputs get memory, children and views are counted.
module PlanLoading {
  import opened GraphSpec
  import opened PlanSpec
  import opened PlanLiveness
  import opened PlanSteps

  // what a request for memory for t does: nothing, take over a source, or allocate
  ghost predicate Allocation(cfg: Config, st: State, st': State, t: nat, bufferId: nat) {
    && Shape(cfg, st) && t < |st.hash| && bufferId < |cfg.bufs|
    && if !Managed(cfg.g, t) || st.hash[t].owned then st' == st
       else if exists p: nat :: Reusable(cfg, st, t, p) then
         exists j: nat :: FirstReusable(cfg, st, t, j) && TakenOver(cfg, st, st', t, cfg.g.tensors[t].src[j])
       else PlacedIn(cfg, st, st', t, bufferId)
  }

  ghost predicate FirstReusable(cfg: Config, st: State, t: nat, j: nat)
    requires Shape(cfg, st) && t < |st.hash|
  {
    && j < |cfg.g.tensors[t].src| && Reusable(cfg, st, t, cfg.g.tensors[t].src[j])
    && forall l :: 0 <= l < j ==> !Reusable(cfg, st, t, cfg.g.tensors[t].src[l])
  }

  lemma AllocationCases(cfg: Config, st: State, st': State, t: nat, bufferId: nat)
    requires Shape(cfg, st) && t < |st.hash| && bufferId < |cfg.bufs|
    ensures (!Managed(cfg.g, t) || st.hash[t].owned) && st' == st ==> Allocation(cfg, st, st', t, bufferId)
    ensures Managed(cfg.g, t) && !st.hash[t].owned && (forall p: nat :: !Reusable(cfg, st, t, p)) ==>
              PlacedIn(cfg, st, st', t, bufferId) ==> Allocation(cfg, st, st', t, bufferId)
  {
  }

  lemma AllocationTaken(cfg: Config, st: State, st': State, t: nat, bufferId: nat, j: nat)
    requires Shape(cfg, st) && t < |st.hash| && bufferId < |cfg.bufs| && Managed(cfg.g, t) && !st.hash[t].owned
    requires FirstReusable(cfg, st, t, j) && TakenOver(cfg, st, st', t, cfg.g.tensors[t].src[j])
    ensures Allocation(cfg, st, st', t, bufferId)
  {
  }

  // ---- the counting loop ----

  ghost function ViewsBefore(g: Graph, m: nat, t: nat): set<nat>
    requires m <= |g.nodes|
  {
    set v | v in g.nodes[..m] && ComputedViewOf(g, v, t)
  }

  // children counted up to source j of node m, views up to node w
  ghost predicate Counted(cfg: Config, st: State, m: nat, j: nat, w: nat) {
    && Shape(cfg, st) && m <= |cfg.g.nodes| && (if m < |cfg.g.nodes| then j <= |Src(cfg.g, m)| else j == 0)
    && w <= |cfg.g.nodes|
    && (forall t :: 0 <= t < |st.hash| ==>
          st.hash[t].nChildren == UsesFrom(cfg.g, 0, t) - Remaining(cfg.g, m, j, t))
    && (forall t :: 0 <= t < |st.hash| && IsView(cfg.g, t) ==> st.hash[t].nViews == 0)
    && (forall t :: 0 <= t < |st.hash| && Managed(cfg.g, t) ==> st.hash[t].nViews == |ViewsBefore(cfg.g, w, t)|)
  }

  // so far only leafs and inputs have memory, and nobody has lost any
  ghost predicate Loaded(cfg: Config, st: State) {
    && MemInv(cfg, st)
    && (forall t :: t in st.ever ==> Managed(cfg.g, t) && cfg.g.tensors[t].op.NoOp? && st.hash[t].owned)
  }

  ghost predicate LeafsIn(g: Graph, ever: set<nat>, n: nat)
    requires InRange(g)
  {
    forall l :: 0 <= l < n && l < |g.leafs| && Managed(g, g.leafs[l]) ==> g.leafs[l] in ever
  }

  predicate WantsInput(g: Graph, t: nat) {
    t < |g.tensors| && g.tensors[t].input && Managed(g, t)
  }

  // the inputs among nodes before m and their sources
  ghost predicate InputsIn(g: Graph, ever: set<nat>, m: nat)
    requires InRange(g)
  {
    && (forall k :: 0 <= k < m && k < |g.nodes| && WantsInput(g, g.nodes[k]) ==> g.nodes[k] in ever)
    && (forall k, s :: 0 <= k < m && k < |g.nodes| && s in Src(g, k) && WantsInput(g, s) ==> s in ever)
  }

  lemma LoadOne(cfg: Config, st: State, st': State, t: nat, bufferId: nat)
    requires Loaded(cfg, st) && t < |st.hash| && cfg.g.tensors[t].op.NoOp?
    requires Allocation(cfg, st, st', t, bufferId)
    ensures Loaded(cfg, st') && Shape(cfg, st') && SameCounts(st.hash, st'.hash) && st.ever <= st'.ever
    ensures Managed(cfg.g, t) ==> t in st'.ever
  {
    if Managed(cfg.g, t) && !st.hash[t].owned {
      assert !CanInplace(cfg.g.tensors[t].op);
      PlacedGains(cfg, st, st', t, bufferId);
    } else {
      assert st.hash[t].owned ==> Owns(cfg, st, t);
    }
  }

  lemma LoadedAlive(cfg: Config, st: State, t: nat)
    requires Loaded(cfg, st) && t < |st.hash|
    ensures Shape(cfg, st) && NotDead(cfg, st, t)
  {
  }

  lemma GraphFacts(g: Graph)
    requires WellFormed(g)
    ensures InRange(g)
    ensures forall l :: 0 <= l < |g.leafs| ==> g.leafs[l] < |g.tensors| && g.tensors[g.leafs[l]].op.NoOp?
    ensures forall m :: 0 <= m < |g.nodes| ==> g.nodes[m] < |g.tensors| && Root(g, g.nodes[m]) < |g.tensors|
    ensures forall m, j :: 0 <= m < |g.nodes| && 0 <= j < |Src(g, m)| ==> Src(g, m)[j] < |g.tensors|
    ensures forall t :: 0 <= t < |g.tensors| && g.tensors[t].input ==> g.tensors[t].op.NoOp?
  {
  }

  lemma CountsCarried(cfg: Config, st: State, st': State, m: nat, j: nat, w: nat)
    requires Counted(cfg, st, m, j, w) && Shape(cfg, st') && SameCounts(st.hash, st'.hash)
    ensures Counted(cfg, st', m, j, w)
  {
  }

  function ViewCounted(g: Graph, hash: seq<HashNode>, n: nat): seq<HashNode>
    requires InRange(g) && |hash| == |g.tensors| && n < |hash|
  {
    if IsView(g, n) && !g.tensors[n].op.NoOp?
    then hash[Root(g, n) := hash[Root(g, n)].(nViews := hash[Root(g, n)].nViews + 1)]
    else hash
  }

  lemma ViewsNext(g: Graph, m: nat, t: nat)
    requires WellFormed(g) && m < |g.nodes|
    ensures g.nodes[m] !in ViewsBefore(g, m, t)
    ensures ViewsBefore(g, m + 1, t) ==
            ViewsBefore(g, m, t) + (if ComputedViewOf(g, g.nodes[m], t) then {g.nodes[m]} else {})
  {
    forall k | 0 <= k < m ensures g.nodes[..m][k] != g.nodes[m] {
      assert g.nodes[..m][k] == g.nodes[k];
    }
    assert g.nodes[..m + 1] == g.nodes[..m] + [g.nodes[m]];
  }

  lemma ViewCountedStep(cfg: Config, st: State, m: nat)
    requires Counted(cfg, st, m, 0, m) && m < |cfg.g.nodes|
    ensures Counted(cfg, st.(hash := ViewCounted(cfg.g, st.hash, cfg.g.nodes[m])), m, 0, m + 1)
  {
    var g := cfg.g;
    assert Managed(g, Root(g, g.nodes[m])) || g.tensors[Root(g, g.nodes[m])].external;
    var h := ViewCounted(g, st.hash, g.nodes[m]);
    forall t | 0 <= t < |h| && Managed(g, t) ensures h[t].nViews == |ViewsBefore(g, m + 1, t)| {
      ViewsNext(g, m, t);
    }
  }

  function ChildCounted(hash: seq<HashNode>, s: nat): seq<HashNode>
    requires s < |hash|
  {
    hash[s := hash[s].(nChildren := hash[s].nChildren + 1)]
  }

  lemma ChildCountedStep(cfg: Config, st: State, m: nat, j: nat)
    requires Counted(cfg, st, m, j, m + 1) && m < |cfg.g.nodes| && j < |Src(cfg.g, m)|
    ensures Counted(cfg, st.(hash := ChildCounted(st.hash, Src(cfg.g, m)[j])), m, j + 1, m + 1)
  {
    var s := Src(cfg.g, m);
    assert s[j..] == [s[j]] + s[j + 1..];
  }

  lemma CountedNext(cfg: Config, st: State, m: nat)
    requires Shape(cfg, st) && m < |cfg.g.nodes| && Counted(cfg, st, m, |Src(cfg.g, m)|, m + 1)
    ensures Counted(cfg, st, m + 1, 0, m + 1)
  {
    var g := cfg.g;
    assert Src(g, m)[|Src(g, m)|..] == [];
    if m + 1 < |g.nodes| { assert Src(g, m + 1)[0..] == Src(g, m + 1); }
  }

  lemma CountedStart(cfg: Config, st: State)
    requires Shape(cfg, st)
    requires forall t :: 0 <= t < |st.hash| ==> st.hash[t].nChildren == 0 && st.hash[t].nViews == 0
    ensures Counted(cfg, st, 0, 0, 0)
  {
    var g := cfg.g;
    if 0 < |g.nodes| { assert Src(g, 0)[0..] == Src(g, 0); }
    assert g.nodes[..0] == [];
  }

  lemma CountingDone(cfg: Config, st: State)
    requires Counted(cfg, st, |cfg.g.nodes|, 0, |cfg.g.nodes|)
    ensures CountInv(cfg, st, 0, 0) && ViewInv(cfg, st)
  {
    var g := cfg.g;
    if 0 < |g.nodes| { assert Src(g, 0)[0..] == Src(g, 0); }
    assert g.nodes[..|g.nodes|] == g.nodes;
    forall t | 0 <= t < |st.hash| && Managed(g, t)
      ensures st.hash[t].nViews == |Unretired(g, st.hash, t)|
    {
      assert Unretired(g, st.hash, t) == ViewsBefore(g, |g.nodes|, t);
    }
  }

  lemma LoadedEver(cfg: Config, st: State)
    requires Loaded(cfg, st)
    requires LeafsIn(cfg.g, st.ever, |cfg.g.leafs|) && InputsIn(cfg.g, st.ever, |cfg.g.nodes|)
    ensures EverInv(cfg, st, 0) && DeadInv(cfg, st, 0) && SafeInv(cfg, st, 0)
  {
    assert InRange(cfg.g);
    hide WellFormed, MemInv, Overlap;
    var g := cfg.g;
    forall t, u | Preloaded(g, t) && Preloaded(g, u) && t != u ensures !Overlap(cfg, st.hash, t, u) {
      PreloadedIn(cfg, st, t);
      PreloadedIn(cfg, st, u);
      AllocatedApart(cfg, st, t, u);
    }
    forall t | 0 <= t < |st.hash| && Managed(g, t) && Placed0(g, 0, t)
      ensures t in st.ever
    {
      PreloadedIn(cfg, st, t);
    }
  }

  lemma PreloadedIn(cfg: Config, st: State, t: nat)
    requires Loaded(cfg, st) && Preloaded(cfg.g, t)
    requires LeafsIn(cfg.g, st.ever, |cfg.g.leafs|) && InputsIn(cfg.g, st.ever, |cfg.g.nodes|)
    ensures t in st.ever && st.hash[t].owned
  {
    hide WellFormed, MemInv;
    if t in cfg.g.leafs {
      var l :| 0 <= l < |cfg.g.leafs| && cfg.g.leafs[l] == t;
    } else {
      assert WantsInput(cfg.g, t);
    }
  }

  lemma LoadingDone(cfg: Config, st: State)
    requires Loaded(cfg, st) && Counted(cfg, st, |cfg.g.nodes|, 0, |cfg.g.nodes|)
    requires LeafsIn(cfg.g, st.ever, |cfg.g.leafs|) && InputsIn(cfg.g, st.ever, |cfg.g.nodes|)
    ensures Ready(cfg, st, 0)
  {
    hide WellFormed, Counted, LeafsIn, InputsIn, EverInv, DeadInv, SafeInv, CountInv, ViewInv, MemInv;
    CountingDone(cfg, st);
    LoadedEver(cfg, st);
  }

  // ---- requests in the main loop ----

  // a source of node i that has no memory gets it now, and then only because it is no node
  lemma SourceAllocated(cfg: Config, st: State, st': State, i: nat, s: nat, bufferId: nat)
    requires Ready(cfg, st, i) && i < |cfg.g.nodes| && s in Src(cfg.g, i)
    requires Allocation(cfg, st, st', s, bufferId)
    ensures Ready(cfg, st', i) && st.ever <= st'.ever && (Managed(cfg.g, s) ==> s in st'.ever)
  {
    SourceAlive(cfg, st, i, s);
    if Managed(cfg.g, s) && !st.hash[s].owned {
      assert !CanInplace(cfg.g.tensors[s].op);
      SourcePlaced(cfg, st, st', s, bufferId, i);
      PlacedGains(cfg, st, st', s, bufferId);
    } else {
      assert st.hash[s].owned ==> Owns(cfg, st, s);
    }
  }

  lemma SourceAlive(cfg: Config, st: State, i: nat, s: nat)
    requires Ready(cfg, st, i) && i < |cfg.g.nodes| && s in Src(cfg.g, i)
    ensures Shape(cfg, st) && s < |st.hash| && NotDead(cfg, st, s)
    ensures Managed(cfg.g, s) && s !in st.ever ==> cfg.g.tensors[s].op.NoOp?
    ensures Managed(cfg.g, s) && CanInplace(cfg.g.tensors[s].op) ==> s !in cfg.g.tensors[s].src
  {
    UsesPositive(cfg.g, i, i, s);
    if s in cfg.g.nodes {
      var k: nat :| k < |cfg.g.nodes| && cfg.g.nodes[k] == s;
      assert s !in Src(cfg.g, k);
      if Managed(cfg.g, s) { EarlierNodeHeld(cfg, st, i, s); }
    }
  }

  lemma EarlierNodeHeld(cfg: Config, st: State, i: nat, s: nat)
    requires EverInv(cfg, st, i) && i < |cfg.g.nodes| && s in Src(cfg.g, i)
    requires s in cfg.g.nodes && Managed(cfg.g, s)
    ensures s in st.ever
  {
    var g := cfg.g;
    var k :| 0 <= k < |g.nodes| && g.nodes[k] == s;
    assert g.nodes[..i][k] == s;
    assert Placed0(g, i, s);
  }

  lemma NodeAlive(cfg: Config, st: State, i: nat)
    requires Ready(cfg, st, i) && i < |cfg.g.nodes|
    ensures Shape(cfg, st) && NotDead(cfg, st, cfg.g.nodes[i]) && cfg.g.nodes[i] !in Src(cfg.g, i)
  {
    var g := cfg.g;
    forall k | 0 <= k < i ensures g.nodes[..i][k] != g.nodes[i] {
      assert g.nodes[..i][k] == g.nodes[k];
    }
  }

  lemma NodeAllocated(cfg: Config, st: State, st': State, i: nat, bufferId: nat)
    requires Ready(cfg, st, i) && i < |cfg.g.nodes| && SourcesHeld(cfg, st, i)
    requires Allocation(cfg, st, st', cfg.g.nodes[i], bufferId)
    ensures Updating(cfg, st', i, 0)
  {
    var n := cfg.g.nodes[i];
    NodeAlive(cfg, st, i);
    assert InRange(cfg.g);
    hide WellFormed, InRange, ValidConfig, LifeInv, CountInv, SafeInv, Updating, PlacedIn, TakenOver, Reusable;
    if !Managed(cfg.g, n) || st.hash[n].owned {
      NodeSkipped(cfg, st, i);
    } else if p: nat :| Reusable(cfg, st, n, p) {
      var j: nat :| FirstReusable(cfg, st, n, j) && TakenOver(cfg, st, st', n, cfg.g.tensors[n].src[j]);
      NodeInherited(cfg, st, st', i, cfg.g.tensors[n].src[j]);
    } else {
      NodePlaced(cfg, st, st', i, bufferId);
    }
  }

  lemma ReadyFacts(cfg: Config, st: State, i: nat)
    requires Ready(cfg, st, i)
    ensures Shape(cfg, st) && WellFormed(cfg.g) && InRange(cfg.g) && |st.hash| == |cfg.g.tensors|
  {
  }

  lemma SourcesHeldBy(cfg: Config, st: State, i: nat)
    requires Shape(cfg, st) && i < |cfg.g.nodes|
    requires forall l :: 0 <= l < |Src(cfg.g, i)| && Managed(cfg.g, Src(cfg.g, i)[l]) ==> Src(cfg.g, i)[l] in st.ever
    ensures SourcesHeld(cfg, st, i)
  {
  }
}
