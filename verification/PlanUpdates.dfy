// Processing a source of a computed node: counting down, retiring views, freeing memory.
module PlanUpdates {
  import opened GraphSpec
  import opened PlanSpec
  import opened PlanLiveness
  import opened PlanSteps

  // one read of v is done; a view without reads left retires
  function Recounted(g: Graph, hash: seq<HashNode>, v: nat): (r: seq<HashNode>)
    requires InRange(g) && |hash| == |g.tensors| && v < |hash|
    ensures |r| == |hash|
  {
    var h := hash[v := hash[v].(nChildren := hash[v].nChildren - 1)];
    var r := Root(g, v);
    if h[v].nChildren == 0 && h[v].nViews == 0 && IsView(g, v)
    then h[r := h[r].(nViews := h[r].nViews - 1)]
    else h
  }

  // outputs are never freed
  function FreeNode(cfg: Config, st: State, t: nat): State
    requires Shape(cfg, st) && t < |st.hash|
  {
    if cfg.g.tensors[t].output then st else Released(st, t, Tal(cfg, st.hash, t))
  }

  function Updated(cfg: Config, st: State, v: nat): State
    requires Shape(cfg, st) && v < |st.hash|
  {
    var h := Recounted(cfg.g, st.hash, v);
    var t := Root(cfg.g, v);
    var st1 := st.(hash := h);
    if h[v].nChildren == 0 && h[v].nViews == 0 && h[t].nChildren == 0 && h[t].nViews == 0 && h[t].owned
    then FreeNode(cfg, st1, t)
    else st1
  }

  lemma OwnersKept(cfg: Config, st: State, h: seq<HashNode>)
    requires MemInv(cfg, st) && |h| == |st.hash|
    requires forall t :: 0 <= t < |h| ==>
               h[t].owned == st.hash[t].owned && h[t].bufferId == st.hash[t].bufferId && h[t].addr == st.hash[t].addr
    ensures MemInv(cfg, st.(hash := h))
  {
    hide WellFormed;
    var st' := st.(hash := h);
    forall t | 0 <= t < |h| && h[t].owned ensures Owns(cfg, st', t) {
      assert Owns(cfg, st, t);
    }
    forall k, a, t ensures OwnerOf(cfg, st', k, a, t) <==> OwnerOf(cfg, st, k, a, t) {
    }
    forall k, a | 0 <= k < |st'.lives| && a in st'.lives[k]
      ensures exists t :: OwnerOf(cfg, st', k, a, t)
    {
      var t :| OwnerOf(cfg, st, k, a, t);
      assert OwnerOf(cfg, st', k, a, t);
    }
  }

  lemma RecountedCounts(cfg: Config, st: State, i: nat, j: nat)
    requires CountInv(cfg, st, i, j) && i < |cfg.g.nodes| && j < |Src(cfg.g, i)|
    ensures CountInv(cfg, st.(hash := Recounted(cfg.g, st.hash, Src(cfg.g, i)[j])), i, j + 1)
  {
    var s := Src(cfg.g, i);
    assert s[j..] == [s[j]] + s[j + 1..];
  }

  // which views are still unretired after v has been counted down
  lemma UnretiredAfter(cfg: Config, st: State, i: nat, j: nat, t: nat)
    requires CountInv(cfg, st, i, j) && i < |cfg.g.nodes| && j < |Src(cfg.g, i)| && t < |st.hash|
    ensures var v := Src(cfg.g, i)[j]; var h := Recounted(cfg.g, st.hash, v);
            Unretired(cfg.g, h, t) ==
            Unretired(cfg.g, st.hash, t) - (if h[v].nChildren == 0 && Root(cfg.g, v) == t then {v} else {})
  {
    var g := cfg.g;
    var v := Src(g, i)[j];
    var h := Recounted(g, st.hash, v);
    assert Src(g, i)[j..][0] == v;
    assert st.hash[v].nChildren > 0;
    UsesPositive(g, 0, i, v);
    forall u | u in g.nodes && ComputedViewOf(g, u, t)
      ensures Retired(g, h, u) <==> Retired(g, st.hash, u) || (u == v && h[v].nChildren == 0)
    {
    }
  }

  lemma RecountedViews(cfg: Config, st: State, i: nat, j: nat)
    requires CountInv(cfg, st, i, j) && ViewInv(cfg, st) && i < |cfg.g.nodes| && j < |Src(cfg.g, i)|
    ensures ViewInv(cfg, st.(hash := Recounted(cfg.g, st.hash, Src(cfg.g, i)[j])))
  {
    var g := cfg.g;
    var v := Src(g, i)[j];
    var h := Recounted(g, st.hash, v);
    forall t | 0 <= t < |h| && Managed(g, t)
      ensures h[t].nViews == |Unretired(g, h, t)|
    {
      UnretiredAfter(cfg, st, i, j, t);
      assert st.hash[t].nViews == |Unretired(g, st.hash, t)|;
      if h[v].nChildren == 0 && Root(g, v) == t && v != t {
        assert v in Unretired(g, st.hash, t);
      }
    }
  }

  lemma RecountedDead(cfg: Config, st: State, i: nat, j: nat)
    requires CountInv(cfg, st, i, j) && i < |cfg.g.nodes| && j < |Src(cfg.g, i)| && DeadInv(cfg, st, i + 1)
    ensures DeadInv(cfg, st.(hash := Recounted(cfg.g, st.hash, Src(cfg.g, i)[j])), i + 1)
  {
    var g := cfg.g;
    var v := Src(g, i)[j];
    var st' := st.(hash := Recounted(g, st.hash, v));
    forall t | t in st'.ever && !st'.hash[t].owned
      ensures Finished(cfg, st', i + 1, t) && (t in g.nodes ==> t in g.nodes[..i + 1])
    {
      assert Finished(cfg, st, i + 1, t);
      UnretiredAfter(cfg, st, i, j, t);
    }
  }

  lemma FreedDead(cfg: Config, st: State, i: nat, t: nat)
    requires DeadInv(cfg, st, i + 1) && t < |st.hash| && st.hash[t].owned
    requires Finished(cfg, st, i + 1, t) && (t in cfg.g.nodes ==> t in cfg.g.nodes[..i + 1])
    ensures DeadInv(cfg, Released(st, t, Tal(cfg, st.hash, t)), i + 1)
  {
    var st' := Released(st, t, Tal(cfg, st.hash, t));
    assert InRange(cfg.g);
    hide WellFormed, InRange;
    forall u | u in st'.ever && !st'.hash[u].owned
      ensures Finished(cfg, st', i + 1, u) && (u in cfg.g.nodes ==> u in cfg.g.nodes[..i + 1])
    {
      SameUnretired(cfg.g, st.hash, st'.hash, u);
    }
  }

  lemma EverSame(cfg: Config, st: State, st': State, i: nat)
    requires EverInv(cfg, st, i) && Shape(cfg, st') && st'.ever == st.ever
    ensures EverInv(cfg, st', i)
  {
  }

  lemma NoReadersFinished(cfg: Config, st: State, i: nat, j: nat, t: nat)
    requires CountInv(cfg, st, i, j) && ViewInv(cfg, st) && i < |cfg.g.nodes|
    requires t < |st.hash| && Managed(cfg.g, t) && !cfg.g.tensors[t].output
    requires st.hash[t].nChildren == 0 && st.hash[t].nViews == 0
    ensures Finished(cfg, st, i + 1, t)
  {
    assert |Unretired(cfg.g, st.hash, t)| == 0;
  }

  lemma ReleasedStable(cfg: Config, st: State, t: nat)
    requires Shape(cfg, st) && t < |st.hash|
    ensures var st' := Released(st, t, Tal(cfg, st.hash, t));
            Shape(cfg, st') && Stable(st, st') && SameCounts(st.hash, st'.hash) && st'.ever == st.ever
  {
    hide WellFormed;
  }

  // Freeing a tensor without readers left: it is finished, and nobody else notices.
  lemma FreeKeeps(cfg: Config, st: State, i: nat, j: nat, t: nat)
    requires Updating(cfg, st, i, j) && t < |st.hash| && st.hash[t].owned && Managed(cfg.g, t)
    requires st.hash[t].nChildren == 0 && st.hash[t].nViews == 0 && !cfg.g.tensors[t].output
    requires t in cfg.g.nodes ==> t in cfg.g.nodes[..i + 1]
    ensures Updating(cfg, Released(st, t, Tal(cfg, st.hash, t)), i, j)
  {
    var st' := Released(st, t, Tal(cfg, st.hash, t));
    assert Shape(cfg, st);
    hide WellFormed, InRange, ValidConfig, Shape, MemInv, SafeInv, CountInv, ViewInv, DeadInv, EverInv;
    hide Finished, Unretired, Stable, SameCounts;
    NoReadersFinished(cfg, st, i, j, t);
    ReleasedStable(cfg, st, t);
    ReleasedKeeps(cfg, st, t);
    CountsKept(cfg, st, st', i, j);
    FreedDead(cfg, st, i, t);
    SafeStable(cfg, st, st', i + 1);
    EverSame(cfg, st, st', i + 1);
  }

  lemma UpdateFacts(cfg: Config, st: State, i: nat, j: nat)
    requires Updating(cfg, st, i, j) && j < |Src(cfg.g, i)|
    ensures Shape(cfg, st) && InRange(cfg.g) && |st.hash| == |cfg.g.tensors|
    ensures Src(cfg.g, i)[j] < |st.hash| && Root(cfg.g, Src(cfg.g, i)[j]) < |st.hash|
    ensures MemInv(cfg, st) && ViewInv(cfg, st) && CountInv(cfg, st, i, j) && SafeInv(cfg, st, i + 1)
    ensures DeadInv(cfg, st, i + 1) && EverInv(cfg, st, i + 1)
  {
    assert InRange(cfg.g);
    hide WellFormed, MemInv, DeadInv, EverInv;
  }

  lemma RecountedShape(cfg: Config, st: State, v: nat)
    requires Shape(cfg, st) && v < |st.hash|
    ensures var st' := st.(hash := Recounted(cfg.g, st.hash, v));
            Shape(cfg, st') && Stable(st, st') &&
            (forall t :: 0 <= t < |st.hash| ==>
               st'.hash[t].owned == st.hash[t].owned && st'.hash[t].bufferId == st.hash[t].bufferId &&
               st'.hash[t].addr == st.hash[t].addr)
  {
    hide WellFormed;
  }

  lemma RecountedKeeps(cfg: Config, st: State, i: nat, j: nat)
    requires Updating(cfg, st, i, j) && j < |Src(cfg.g, i)|
    ensures Updating(cfg, st.(hash := Recounted(cfg.g, st.hash, Src(cfg.g, i)[j])), i, j + 1)
  {
    hide WellFormed, InRange, ValidConfig, Shape, MemInv, SafeInv, ViewInv, CountInv, DeadInv, EverInv,
         Recounted, Stable;
    UpdateFacts(cfg, st, i, j);
    var st' := st.(hash := Recounted(cfg.g, st.hash, Src(cfg.g, i)[j]));
    RecountedShape(cfg, st, Src(cfg.g, i)[j]);
    OwnersKept(cfg, st, st'.hash);
    RecountedCounts(cfg, st, i, j);
    RecountedViews(cfg, st, i, j);
    RecountedDead(cfg, st, i, j);
    SafeStable(cfg, st, st', i + 1);
    EverSame(cfg, st, st', i + 1);
  }

  // the memory behind a source of node i belongs to no later node
  lemma SourceBehind(g: Graph, i: nat, v: nat)
    requires WellFormed(g) && i < |g.nodes| && v in Src(g, i) && Managed(g, Root(g, v))
    ensures Root(g, v) in g.nodes ==> Root(g, v) in g.nodes[..i + 1]
  {
    var r := Root(g, v);
    if r in g.nodes {
      var k :| 0 <= k < |g.nodes| && g.nodes[k] == r;
      if r != v {
        assert Behind(g, i, r);
        var l :| 0 <= l < i && g.nodes[..i][l] == r;
        assert g.nodes[l] == g.nodes[k];
      }
      assert g.nodes[..i + 1][k] == r;
    }
  }

  lemma UpdatedIs(cfg: Config, st: State, v: nat)
    requires Shape(cfg, st) && v < |st.hash| && Root(cfg.g, v) < |st.hash|
    ensures var st1 := st.(hash := Recounted(cfg.g, st.hash, v)); var t := Root(cfg.g, v);
            Shape(cfg, st1) &&
            Updated(cfg, st, v) ==
            if st1.hash[v].nChildren == 0 && st1.hash[v].nViews == 0 && st1.hash[t].nChildren == 0 &&
               st1.hash[t].nViews == 0 && st1.hash[t].owned
            then FreeNode(cfg, st1, t) else st1
  {
    assert InRange(cfg.g);
    hide WellFormed, InRange, FreeNode;
  }

  lemma UpdatedKeeps(cfg: Config, st: State, i: nat, j: nat)
    requires Updating(cfg, st, i, j) && j < |Src(cfg.g, i)|
    ensures Updating(cfg, Updated(cfg, st, Src(cfg.g, i)[j]), i, j + 1)
  {
    hide WellFormed, InRange, ValidConfig, Shape, Updating, Updated, Recounted, FreeNode;
    UpdateFacts(cfg, st, i, j);
    var v := Src(cfg.g, i)[j];
    var t := Root(cfg.g, v);
    var st1 := st.(hash := Recounted(cfg.g, st.hash, v));
    UpdatedIs(cfg, st, v);
    RecountedKeeps(cfg, st, i, j);
    FreedBehind(cfg, st1, i, j + 1, v);
    MaybeFreeKeeps(cfg, st1, i, j + 1, t, st1.hash[v].nChildren == 0 && st1.hash[v].nViews == 0);
  }

  lemma FreedBehind(cfg: Config, st: State, i: nat, j: nat, v: nat)
    requires Updating(cfg, st, i, j) && v in Src(cfg.g, i) && Root(cfg.g, v) < |st.hash|
    ensures var t := Root(cfg.g, v);
            st.hash[t].owned ==> Managed(cfg.g, t) && (t in cfg.g.nodes ==> t in cfg.g.nodes[..i + 1])
  {
    var t := Root(cfg.g, v);
    if st.hash[t].owned {
      assert Owns(cfg, st, t);
      SourceBehind(cfg.g, i, v);
    }
  }

  lemma MaybeFreeKeeps(cfg: Config, st: State, i: nat, j: nat, t: nat, idle: bool)
    requires Updating(cfg, st, i, j) && t < |st.hash|
    requires st.hash[t].owned ==> Managed(cfg.g, t) && (t in cfg.g.nodes ==> t in cfg.g.nodes[..i + 1])
    ensures Updating(cfg,
              if idle && st.hash[t].nChildren == 0 && st.hash[t].nViews == 0 && st.hash[t].owned
              then FreeNode(cfg, st, t) else st, i, j)
  {
    if st.hash[t].nChildren == 0 && st.hash[t].nViews == 0 && st.hash[t].owned && !cfg.g.tensors[t].output {
      FreeKeeps(cfg, st, i, j, t);
    }
  }

  // After the last source the next iteration starts.
  lemma NextReady(cfg: Config, st: State, i: nat)
    requires Shape(cfg, st) && i < |cfg.g.nodes| && Updating(cfg, st, i, |Src(cfg.g, i)|)
    ensures Ready(cfg, st, i + 1)
  {
    var g := cfg.g;
    assert Src(g, i)[|Src(g, i)|..] == [];
    if i + 1 < |g.nodes| { assert Src(g, i + 1)[0..] == Src(g, i + 1); }
  }

  lemma UpdatingFacts(cfg: Config, st: State, i: nat, j: nat)
    requires InRange(cfg.g) && Updating(cfg, st, i, j) && j < |Src(cfg.g, i)|
    ensures Shape(cfg, st) && Src(cfg.g, i)[j] < |st.hash|
  {
  }
}
