// Memory is given back at the last use: what still holds memory at the end, and why.
module PlanRelease {
  import opened GraphSpec
  import opened PlanSpec
  import opened PlanLiveness
  import opened PlanSteps
  import opened PlanUpdates
  import opened PlanLoading

  // no node reads t, and no computed view looks into it
  ghost predicate Untouched(g: Graph, t: nat)
    requires InRange(g)
  {
    UsesFrom(g, 0, t) == 0 && forall v :: v in g.nodes ==> !ComputedViewOf(g, v, t)
  }

  // a tensor without readers left holds memory only if it is an output or never had a reader
  ghost predicate GivenBack(cfg: Config, st: State, i: nat, j: nat) {
    && Shape(cfg, st) && i <= |cfg.g.nodes| && (if i < |cfg.g.nodes| then j <= |Src(cfg.g, i)| else j == 0)
    && forall t :: 0 <= t < |st.hash| && Unread(cfg, st, i, j, t) ==> Untouched(cfg.g, t)
  }

  ghost predicate Unread(cfg: Config, st: State, i: nat, j: nat, t: nat)
    requires Shape(cfg, st) && i <= |cfg.g.nodes| && (if i < |cfg.g.nodes| then j <= |Src(cfg.g, i)| else j == 0)
    requires t < |st.hash|
  {
    && st.hash[t].owned && !cfg.g.tensors[t].output
    && Remaining(cfg.g, i, j, t) == 0 && Unretired(cfg.g, st.hash, t) == {}
  }

  // before the first node every reader is still to come
  lemma LoadingGivenBack(cfg: Config, st: State)
    requires CountInv(cfg, st, 0, 0)
    ensures GivenBack(cfg, st, 0, 0)
  {
    var g := cfg.g;
    assert InRange(g);
    hide WellFormed, InRange;
    if 0 < |g.nodes| { assert Src(g, 0)[0..] == Src(g, 0); }
    forall t, v | 0 <= t < |st.hash| && v in g.nodes && ComputedViewOf(g, v, t) ensures v in Unretired(g, st.hash, t) {
    }
  }

  // memory for t disturbs nobody else
  lemma GainsGivenBack(cfg: Config, st: State, st': State, i: nat, t: nat)
    requires GivenBack(cfg, st, i, 0) && Gains(cfg, st, st', t)
    requires forall u :: 0 <= u < |st.hash| && u != t && st'.hash[u].owned ==> st.hash[u].owned
    requires Unread(cfg, st', i, 0, t) ==> Untouched(cfg.g, t)
    ensures GivenBack(cfg, st', i, 0)
  {
    assert InRange(cfg.g);
    hide WellFormed, InRange, Unretired, Remaining, Untouched;
    forall u | 0 <= u < |st'.hash| && Unread(cfg, st', i, 0, u) ensures Untouched(cfg.g, u) {
      SameUnretired(cfg.g, st.hash, st'.hash, u);
      if u != t { assert Unread(cfg, st, i, 0, u); }
    }
  }

  lemma SourceGivenBack(cfg: Config, st: State, st': State, i: nat, s: nat, bufferId: nat)
    requires Ready(cfg, st, i) && GivenBack(cfg, st, i, 0) && i < |cfg.g.nodes| && s in Src(cfg.g, i)
    requires Allocation(cfg, st, st', s, bufferId)
    ensures GivenBack(cfg, st', i, 0)
  {
    SourceAlive(cfg, st, i, s);
    if Managed(cfg.g, s) && !st.hash[s].owned {
      assert !CanInplace(cfg.g.tensors[s].op);
      PlacedGains(cfg, st, st', s, bufferId);
      assert Src(cfg.g, i)[0..] == Src(cfg.g, i);
      hide WellFormed, MemInv;
      GainsGivenBack(cfg, st, st', i, s);
    }
  }

  // views of node i and their readers come after it
  lemma NodeUntouched(cfg: Config, st: State, i: nat)
    requires CountInv(cfg, st, i, 0) && i < |cfg.g.nodes| && Managed(cfg.g, cfg.g.nodes[i])
    requires Remaining(cfg.g, i, 0, cfg.g.nodes[i]) == 0 && Unretired(cfg.g, st.hash, cfg.g.nodes[i]) == {}
    ensures Untouched(cfg.g, cfg.g.nodes[i])
  {
    var g, n := cfg.g, cfg.g.nodes[i];
    assert Src(g, i)[0..] == Src(g, i);
    NoEarlyUses(g, 0, i);
    forall v | v in g.nodes ensures !ComputedViewOf(g, v, n) {
      if ComputedViewOf(g, v, n) {
        assert v !in Unretired(g, st.hash, n);
        ReadersBehind(g, i, v);
      }
    }
  }

  lemma ReadersBehind(g: Graph, i: nat, v: nat)
    requires WellFormed(g) && i < |g.nodes| && Managed(g, g.nodes[i]) && v in g.nodes
    requires ComputedViewOf(g, v, g.nodes[i]) && UsesFrom(g, 0, v) > 0
    ensures UsesFrom(g, i, v) > 0
  {
    UsesWitness(g, 0, v);
    var k :| 0 <= k < |g.nodes| && v in Src(g, k);
    var l :| 0 <= l < |g.nodes| && g.nodes[l] == v;
    assert l < k;
    assert Behind(g, l, g.nodes[i]);
    var m :| 0 <= m < l && g.nodes[..l][m] == g.nodes[i];
    assert g.nodes[m] == g.nodes[i] && m == i;
    UsesPositive(g, i, k, v);
  }

  lemma NodeGivenBack(cfg: Config, st: State, st': State, i: nat, bufferId: nat)
    requires Ready(cfg, st, i) && GivenBack(cfg, st, i, 0) && i < |cfg.g.nodes|
    requires Allocation(cfg, st, st', cfg.g.nodes[i], bufferId)
    ensures GivenBack(cfg, st', i, 0)
  {
    var n := cfg.g.nodes[i];
    NodeAlive(cfg, st, i);
    assert InRange(cfg.g);
    hide WellFormed, InRange, GivenBack, Reusable, TakenOver, PlacedIn, CountInv, ViewInv, DeadInv, EverInv, SafeInv;
    if Managed(cfg.g, n) && !st.hash[n].owned {
      if p: nat :| Reusable(cfg, st, n, p) {
        var j: nat :| FirstReusable(cfg, st, n, j) && TakenOver(cfg, st, st', n, cfg.g.tensors[n].src[j]);
        TakenGains(cfg, st, st', i, cfg.g.tensors[n].src[j]);
      } else {
        PlacedGains(cfg, st, st', n, bufferId);
      }
      hide MemInv;
      CountedLater(cfg, st, st', i, n);
      if Unread(cfg, st', i, 0, n) { NodeUntouched(cfg, st', i); }
      GainsGivenBack(cfg, st, st', i, n);
    }
  }

  lemma CountedLater(cfg: Config, st: State, st': State, i: nat, t: nat)
    requires LifeInv(cfg, st, i) && CountInv(cfg, st, i, 0) && Gains(cfg, st, st', t)
    ensures CountInv(cfg, st', i, 0)
  {
    hide WellFormed;
    CountsKept(cfg, st, st', i, 0);
  }

  lemma TakenGains(cfg: Config, st: State, st': State, i: nat, p: nat)
    requires MemInv(cfg, st) && i < |cfg.g.nodes| && Managed(cfg.g, cfg.g.nodes[i]) && cfg.g.nodes[i] !in st.ever
    requires cfg.g.nodes[i] !in Src(cfg.g, i)
    requires Reusable(cfg, st, cfg.g.nodes[i], p) && TakenOver(cfg, st, st', cfg.g.nodes[i], p)
    ensures Gains(cfg, st, st', cfg.g.nodes[i])
    ensures forall u :: 0 <= u < |st.hash| && u != cfg.g.nodes[i] && st'.hash[u].owned ==> st.hash[u].owned
  {
    assert p in Src(cfg.g, i) && cfg.g.nodes[i] != p;
    hide WellFormed;
    InheritedGains(cfg, st, st', cfg.g.nodes[i], p);
    hide MemInv;
  }

  // A source that has been read for the last time gives its memory back, and so does the tensor
  // behind the last view of it.
  lemma UpdatedGivenBack(cfg: Config, st: State, i: nat, j: nat)
    requires Updating(cfg, st, i, j) && GivenBack(cfg, st, i, j) && j < |Src(cfg.g, i)|
    ensures GivenBack(cfg, Updated(cfg, st, Src(cfg.g, i)[j]), i, j + 1)
  {
    hide WellFormed, InRange, ValidConfig, MemInv, DeadInv, EverInv, SafeInv, Recounted, Updated, FreeNode,
         Untouched, Unretired, Remaining;
    UpdateFacts(cfg, st, i, j);
    var g := cfg.g;
    var v := Src(g, i)[j];
    var t := Root(g, v);
    var st1, st' := st.(hash := Recounted(g, st.hash, v)), Updated(cfg, st, v);
    RecountedShape(cfg, st, v);
    RecountedCounts(cfg, st, i, j);
    RecountedViews(cfg, st, i, j);
    UpdatedIs(cfg, st, v);
    FreedShape(cfg, st1, t);
    forall u | 0 <= u < |st'.hash| && Unread(cfg, st', i, j + 1, u) ensures Untouched(g, u) {
      SameUnretired(g, st1.hash, st'.hash, u);
      UnretiredAfter(cfg, st, i, j, u);
      OwnedManaged(cfg, st, u);
      ReadsLeft(g, i, j, u);
      if u == t {
        IdleFreed(cfg, st1, i, j + 1, v);
      } else {
        assert Unread(cfg, st, i, j, u);
      }
    }
  }

  lemma OwnedManaged(cfg: Config, st: State, t: nat)
    requires MemInv(cfg, st) && t < |st.hash|
    ensures st.hash[t].owned ==> Managed(cfg.g, t)
  {
    assert st.hash[t].owned ==> Owns(cfg, st, t);
  }

  lemma ReadsLeft(g: Graph, i: nat, j: nat, t: nat)
    requires InRange(g) && i < |g.nodes| && j < |Src(g, i)|
    ensures Remaining(g, i, j, t) == Remaining(g, i, j + 1, t) + if t == Src(g, i)[j] then 1 else 0
  {
    assert Src(g, i)[j..] == [Src(g, i)[j]] + Src(g, i)[j + 1..];
  }

  // when the reads of v and of what is behind it have all come, the counters say so
  lemma IdleFreed(cfg: Config, st: State, i: nat, j: nat, v: nat)
    requires CountInv(cfg, st, i, j) && ViewInv(cfg, st) && v < |st.hash| && Root(cfg.g, v) < |st.hash|
    requires var t := Root(cfg.g, v);
             Managed(cfg.g, t) && Remaining(cfg.g, i, j, t) == 0 && Unretired(cfg.g, st.hash, t) == {}
    ensures var t := Root(cfg.g, v);
            && st.hash[t].nChildren == 0 && st.hash[t].nViews == 0
            && (st.hash[v].nChildren == 0 ==> st.hash[v].nViews == 0)
            && (st.hash[v].nChildren == 0 <==> Remaining(cfg.g, i, j, v) == 0)
  {
    hide WellFormed, Unretired, Remaining;
  }

  lemma FreedShape(cfg: Config, st: State, t: nat)
    requires Shape(cfg, st) && t < |st.hash|
    ensures var st' := FreeNode(cfg, st, t);
            Shape(cfg, st') && SameCounts(st.hash, st'.hash) &&
            (forall u :: 0 <= u < |st.hash| && st'.hash[u].owned ==> st.hash[u].owned) &&
            (st'.hash[t].owned ==> cfg.g.tensors[t].output || !st.hash[t].owned)
  {
    hide WellFormed;
  }

  lemma NextGivenBack(cfg: Config, st: State, i: nat)
    requires i < |cfg.g.nodes| && InRange(cfg.g) && GivenBack(cfg, st, i, |Src(cfg.g, i)|)
    ensures GivenBack(cfg, st, i + 1, 0)
  {
    var g := cfg.g;
    hide WellFormed, InRange, Untouched, Unretired;
    assert Src(g, i)[|Src(g, i)|..] == [];
    if i + 1 < |g.nodes| { assert Src(g, i + 1)[0..] == Src(g, i + 1); }
    forall t | 0 <= t < |st.hash| && Unread(cfg, st, i + 1, 0, t) ensures Untouched(g, t) {
      assert Unread(cfg, st, i, |Src(g, i)|, t);
    }
  }

  // At the end a tensor that was read, or looked into by a view, holds memory exactly when it is an
  // output or some computed view of it was never read.
  lemma KeptExactlyWhen(cfg: Config, st: State, t: nat)
    requires Ready(cfg, st, |cfg.g.nodes|) && GivenBack(cfg, st, |cfg.g.nodes|, 0) && t in st.ever
    requires !Untouched(cfg.g, t)
    ensures st.hash[t].owned <==> cfg.g.tensors[t].output || KeptByView(cfg.g, t)
  {
    hide LifeInv, SafeInv, CountInv, Untouched, Unretired, Remaining;
    var n := |cfg.g.nodes|;
    assert Shape(cfg, st) && InRange(cfg.g);
    hide WellFormed, InRange, ValidConfig;
    if cfg.g.tensors[t].output || KeptByView(cfg.g, t) { NeededOwned(cfg, st, n, t); }
    if st.hash[t].owned && !cfg.g.tensors[t].output {
      assert !Unread(cfg, st, n, 0, t);
      NothingRemains(cfg, st, t);
    }
  }

  lemma NothingRemains(cfg: Config, st: State, t: nat)
    requires CountInv(cfg, st, |cfg.g.nodes|, 0)
    ensures Remaining(cfg.g, |cfg.g.nodes|, 0, t) == 0
    ensures Unretired(cfg.g, st.hash, t) != {} ==> KeptByView(cfg.g, t)
  {
    assert InRange(cfg.g);
    hide WellFormed, InRange;
    if v :| v in Unretired(cfg.g, st.hash, t) {
      assert UsesFrom(cfg.g, 0, v) == 0;
    }
  }
}
