// Which buffer a tensor is planned in, and which nodes take over a source in place: both follow
// from the graph and from the ids that the caller gives.
module PlanBuffers {
  import opened GraphSpec
  import opened PlanSpec
  import opened PlanLiveness
  import opened PlanSteps
  import opened PlanUpdates
  import opened PlanLoading

  // the ids for the nodes and for the leafs, if there are any
  datatype Ids = Ids(nodes: Option<seq<nat>>, leafs: Option<seq<nat>>)

  // b is the id given at index i, 0 without ids
  predicate Given(ids: Option<seq<nat>>, i: nat, b: nat) {
    match ids
    case Some(s) => i < |s| && s[i] == b
    case None => b == 0
  }

  // ---- what follows from the graph alone ----

  predicate FirstLeaf(g: Graph, t: nat, i: nat) { i < |g.leafs| && g.leafs[i] == t && t !in g.leafs[..i] }

  // node k is t or reads it
  predicate Asks(g: Graph, k: nat, t: nat)
    requires InRange(g) && k < |g.nodes|
  {
    g.nodes[k] == t || t in Src(g, k)
  }

  ghost predicate FirstAsked(g: Graph, t: nat, k: nat)
    requires InRange(g)
  {
    k < |g.nodes| && Asks(g, k, t) && forall m :: 0 <= m < k ==> !Asks(g, m, t)
  }

  // Node i may overwrite p: it is the last to read p, reads it once, and every computed view of p has
  // been read for the last time.
  ghost predicate Overwritable(g: Graph, i: nat, p: nat)
    requires InRange(g) && i < |g.nodes|
  {
    && CanInplace(g.tensors[g.nodes[i]].op) && p in Src(g, i) && Managed(g, p) && !g.tensors[p].output
    && g.tensors[g.nodes[i]].layout == g.tensors[p].layout
    && UsesFrom(g, i, p) == 1
    && forall v :: v in g.nodes && ComputedViewOf(g, v, p) ==> UsesFrom(g, 0, v) > 0 && UsesFrom(g, i, v) == 0
  }

  ghost predicate FirstTaken(g: Graph, i: nat, j: nat)
    requires InRange(g) && i < |g.nodes|
  {
    && j < |Src(g, i)| && Overwritable(g, i, Src(g, i)[j])
    && forall l :: 0 <= l < j ==> !Overwritable(g, i, Src(g, i)[l])
  }

  // ---- where tensors are ----

  ghost predicate SamePlace(st: State, t: nat, p: nat)
    requires t < |st.hash|
  {
    p in st.ever && p < |st.hash| && st.hash[t].bufferId == st.hash[p].bufferId && st.hash[t].addr == st.hash[p].addr
  }

  // A leaf is in the buffer given for it. Everything else is in the buffer given for the first node that
  // is or reads it, unless it is a node that may overwrite a source: then it is where the first such
  // source was.
  ghost predicate RightPlace(cfg: Config, st: State, ids: Ids, t: nat)
    requires Shape(cfg, st) && t < |st.hash|
  {
    var g := cfg.g;
    && (forall i: nat :: FirstLeaf(g, t, i) ==> Given(ids.leafs, i, st.hash[t].bufferId))
    && (t !in g.leafs ==> forall k: nat :: FirstAsked(g, t, k) ==>
          && (forall j: nat :: g.nodes[k] == t && FirstTaken(g, k, j) ==> SamePlace(st, t, Src(g, k)[j]))
          && ((g.nodes[k] == t ==> forall j: nat :: !FirstTaken(g, k, j)) ==> Given(ids.nodes, k, st.hash[t].bufferId)))
  }

  ghost predicate InPlace(cfg: Config, st: State, ids: Ids) {
    Shape(cfg, st) && forall t :: t in st.ever ==> RightPlace(cfg, st, ids, t)
  }

  // ---- the steps ----

  lemma PlaceStays(cfg: Config, st: State, st': State, ids: Ids, t: nat)
    requires Shape(cfg, st) && Shape(cfg, st') && Stable(st, st') && t in st.ever && RightPlace(cfg, st, ids, t)
    ensures RightPlace(cfg, st', ids, t)
  {
    assert InRange(cfg.g);
    hide WellFormed, InRange, ValidConfig, FirstAsked, FirstTaken, FirstLeaf, Given;
    var g := cfg.g;
    forall k: nat, j: nat | FirstAsked(g, t, k) && k < |g.nodes| && g.nodes[k] == t && FirstTaken(g, k, j) &&
      t !in g.leafs
      ensures j < |Src(g, k)| && SamePlace(st', t, Src(g, k)[j])
    {
      assert SamePlace(st, t, Src(g, k)[j]);
    }
  }

  lemma PlacesStay(cfg: Config, st: State, st': State, ids: Ids)
    requires InPlace(cfg, st, ids) && Shape(cfg, st') && Stable(st, st') && st'.ever == st.ever
    ensures InPlace(cfg, st', ids)
  {
    hide WellFormed, ValidConfig, RightPlace;
    forall t | t in st'.ever ensures RightPlace(cfg, st', ids, t) { PlaceStays(cfg, st, st', ids, t); }
  }

  lemma PlacesGain(cfg: Config, st: State, st': State, ids: Ids, t: nat)
    requires InPlace(cfg, st, ids) && Gains(cfg, st, st', t) && RightPlace(cfg, st', ids, t)
    ensures InPlace(cfg, st', ids)
  {
    hide WellFormed, ValidConfig, RightPlace;
    forall u | u in st'.ever ensures RightPlace(cfg, st', ids, u) {
      if u != t { PlaceStays(cfg, st, st', ids, u); }
    }
  }

  // t is no leaf, and node i asks for it first
  lemma AskedNow(cfg: Config, st: State, ids: Ids, t: nat, i: nat)
    requires Shape(cfg, st) && t < |st.hash| && i < |cfg.g.nodes| && t !in cfg.g.leafs && FirstAsked(cfg.g, t, i)
    requires cfg.g.nodes[i] == t ==> forall j: nat :: !FirstTaken(cfg.g, i, j)
    requires Given(ids.nodes, i, st.hash[t].bufferId)
    ensures RightPlace(cfg, st, ids, t)
  {
    assert InRange(cfg.g);
    hide WellFormed, InRange, ValidConfig, FirstTaken, Given, Asks;
    forall k: nat | FirstAsked(cfg.g, t, k) ensures k == i {}
    assert forall l: nat :: !FirstLeaf(cfg.g, t, l);
  }

  lemma LeafRight(cfg: Config, st: State, ids: Ids, i: nat)
    requires Shape(cfg, st) && i < |cfg.g.leafs| && cfg.g.leafs[i] < |st.hash| && cfg.g.leafs[i] !in cfg.g.leafs[..i]
    requires Given(ids.leafs, i, st.hash[cfg.g.leafs[i]].bufferId)
    ensures RightPlace(cfg, st, ids, cfg.g.leafs[i])
  {
    var g, t := cfg.g, cfg.g.leafs[i];
    hide WellFormed, InRange, ValidConfig, Given;
    LeafsBefore(g, t, i);
    forall l: nat | FirstLeaf(g, t, l) ensures l == i { LeafsBefore(g, t, l); }
  }

  lemma LeafsBefore(g: Graph, t: nat, i: nat)
    requires FirstLeaf(g, t, i)
    ensures forall l :: 0 <= l < i ==> g.leafs[l] != t
  {
    forall l | 0 <= l < i ensures g.leafs[l] != t { assert g.leafs[..i][l] == g.leafs[l]; }
  }

  // ---- leafs and inputs ----

  lemma PlacedBuffer(cfg: Config, st: State, st': State, t: nat, b: nat)
    requires MemInv(cfg, st) && t !in st.ever && t < |st.hash| && Managed(cfg.g, t) && PlacedIn(cfg, st, st', t, b)
    ensures Gains(cfg, st, st', t) && st'.hash[t].bufferId == b
  {
    PlacedGains(cfg, st, st', t, b);
    var a :| PlacedAt(cfg, st, st', t, b, a);
  }

  // a request for a tensor without an operation: fresh memory in buffer b, unless it has some
  lemma PlainRequest(cfg: Config, st: State, st': State, t: nat, b: nat)
    requires MemInv(cfg, st) && t < |st.hash| && cfg.g.tensors[t].op.NoOp? && NotDead(cfg, st, t)
    requires Allocation(cfg, st, st', t, b)
    ensures if Managed(cfg.g, t) && t !in st.ever then Gains(cfg, st, st', t) && st'.hash[t].bufferId == b
            else st' == st
  {
    hide WellFormed;
    assert st.hash[t].owned ==> Owns(cfg, st, t);
    assert !CanInplace(cfg.g.tensors[t].op);
    if Managed(cfg.g, t) && t !in st.ever { PlacedBuffer(cfg, st, st', t, b); }
  }

  lemma LeafInPlace(cfg: Config, st: State, st': State, ids: Ids, i: nat, b: nat)
    requires InPlace(cfg, st, ids) && Loaded(cfg, st) && i < |cfg.g.leafs| && LeafsIn(cfg.g, st.ever, i)
    requires Allocation(cfg, st, st', cfg.g.leafs[i], b) && Given(ids.leafs, i, b)
    ensures InPlace(cfg, st', ids)
  {
    var t := cfg.g.leafs[i];
    PlainRequest(cfg, st, st', t, b);
    if Managed(cfg.g, t) && t !in st.ever {
      forall l | 0 <= l < i
        ensures cfg.g.leafs[..i][l] != t
      {
        assert cfg.g.leafs[l] in st.ever || cfg.g.leafs[l] != t;
      }
      hide WellFormed, MemInv, InPlace, LeafsIn, Allocation;
      LeafRight(cfg, st', ids, i);
      PlacesGain(cfg, st, st', ids, t);
    }
  }

  lemma InputInPlace(cfg: Config, st: State, st': State, ids: Ids, m: nat, t: nat, b: nat)
    requires InPlace(cfg, st, ids) && Loaded(cfg, st) && m < |cfg.g.nodes| && Asks(cfg.g, m, t)
    requires t < |st.hash| && cfg.g.tensors[t].input
    requires LeafsIn(cfg.g, st.ever, |cfg.g.leafs|) && InputsIn(cfg.g, st.ever, m)
    requires Allocation(cfg, st, st', t, b) && Given(ids.nodes, m, b)
    ensures InPlace(cfg, st', ids)
  {
    PlainRequest(cfg, st, st', t, b);
    if Managed(cfg.g, t) && t !in st.ever {
      assert WantsInput(cfg.g, t) && FirstAsked(cfg.g, t, m) && t !in cfg.g.leafs;
      hide WellFormed, MemInv, InPlace, LeafsIn, InputsIn, Allocation;
      NothingTaken(cfg.g, m, t);
      AskedNow(cfg, st', ids, t, m);
      PlacesGain(cfg, st, st', ids, t);
    }
  }

  // t is the next leaf, or an input that node m is or reads, and b is the id given there
  ghost predicate Due(cfg: Config, ever: set<nat>, ids: Ids, t: nat, b: nat)
    requires InRange(cfg.g)
  {
    || (exists i: nat :: LeafDue(cfg.g, ever, i, t) && Given(ids.leafs, i, b))
    || (exists m: nat :: InputDue(cfg.g, ever, m, t) && Given(ids.nodes, m, b))
  }

  ghost predicate LeafDue(g: Graph, ever: set<nat>, i: nat, t: nat)
    requires InRange(g)
  {
    i < |g.leafs| && g.leafs[i] == t && LeafsIn(g, ever, i)
  }

  ghost predicate InputDue(g: Graph, ever: set<nat>, m: nat, t: nat)
    requires InRange(g)
  {
    && m < |g.nodes| && Asks(g, m, t) && t < |g.tensors| && g.tensors[t].input
    && LeafsIn(g, ever, |g.leafs|) && InputsIn(g, ever, m)
  }

  lemma InputsLater(g: Graph, ever: set<nat>, ever': set<nat>, m: nat)
    requires InRange(g) && ever <= ever' && LeafsIn(g, ever, |g.leafs|) && InputsIn(g, ever, m)
    ensures LeafsIn(g, ever', |g.leafs|) && InputsIn(g, ever', m)
  {
  }

  lemma DueInPlace(cfg: Config, st: State, st': State, ids: Ids, t: nat, b: nat)
    requires InPlace(cfg, st, ids) && Loaded(cfg, st) && InRange(cfg.g) && t < |st.hash| && Due(cfg, st.ever, ids, t, b)
    requires Allocation(cfg, st, st', t, b)
    ensures InPlace(cfg, st', ids)
  {
    hide WellFormed, ValidConfig, MemInv, InPlace, Allocation, LeafsIn, InputsIn, Given;
    if i: nat :| LeafDue(cfg.g, st.ever, i, t) && Given(ids.leafs, i, b) {
      LeafInPlace(cfg, st, st', ids, i, b);
    } else {
      var m: nat :| InputDue(cfg.g, st.ever, m, t) && Given(ids.nodes, m, b);
      InputInPlace(cfg, st, st', ids, m, t, b);
    }
  }

  lemma NothingTaken(g: Graph, i: nat, t: nat)
    requires InRange(g) && i < |g.nodes| && t < |g.tensors| && !CanInplace(g.tensors[t].op)
    ensures g.nodes[i] == t ==> forall j: nat :: !FirstTaken(g, i, j)
  {
  }

  // ---- the main loop ----

  lemma NewIsFirst(cfg: Config, st: State, i: nat, t: nat)
    requires EverInv(cfg, st, i) && i < |cfg.g.nodes| && Asks(cfg.g, i, t)
    requires t < |st.hash| && Managed(cfg.g, t) && t !in st.ever
    ensures FirstAsked(cfg.g, t, i) && t !in cfg.g.leafs
  {
    assert !Placed0(cfg.g, i, t);
    forall m | 0 <= m < i ensures !Asks(cfg.g, m, t) {
      assert cfg.g.nodes[..i][m] == cfg.g.nodes[m];
    }
  }

  lemma SourceInPlace(cfg: Config, st: State, st': State, ids: Ids, i: nat, s: nat, b: nat)
    requires InPlace(cfg, st, ids) && Ready(cfg, st, i) && i < |cfg.g.nodes| && s in Src(cfg.g, i)
    requires Allocation(cfg, st, st', s, b) && Given(ids.nodes, i, b)
    ensures InPlace(cfg, st', ids)
  {
    SourceAlive(cfg, st, i, s);
    hide InPlace;
    if Managed(cfg.g, s) && s !in st.ever {
      PlainRequest(cfg, st, st', s, b);
      NewIsFirst(cfg, st, i, s);
      hide WellFormed, MemInv, Allocation, FirstAsked;
      NothingTaken(cfg.g, i, s);
      AskedNow(cfg, st', ids, s, i);
      PlacesGain(cfg, st, st', ids, s);
    }
  }

  // the counters of p before node i say what the graph says
  lemma CountersSay(cfg: Config, st: State, i: nat, p: nat)
    requires CountInv(cfg, st, i, 0) && ViewInv(cfg, st) && i < |cfg.g.nodes| && p < |st.hash| && Managed(cfg.g, p)
    ensures st.hash[p].nChildren == UsesFrom(cfg.g, i, p)
    ensures st.hash[p].nViews == 0 <==>
            forall v :: v in cfg.g.nodes && ComputedViewOf(cfg.g, v, p) ==>
              UsesFrom(cfg.g, 0, v) > 0 && UsesFrom(cfg.g, i, v) == 0
  {
    var g := cfg.g;
    assert InRange(g);
    hide WellFormed, ValidConfig;
    assert Src(g, i)[0..] == Src(g, i);
    var views := Unretired(g, st.hash, p);
    assert st.hash[p].nViews == |views|;
    forall v | v in g.nodes && ComputedViewOf(g, v, p)
      ensures v in views <==> !(UsesFrom(g, 0, v) > 0 && UsesFrom(g, i, v) == 0)
    {
      assert st.hash[v].nChildren == Remaining(g, i, 0, v);
    }
  }

  // a source that node i reads still has its memory
  lemma SourceOwned(cfg: Config, st: State, i: nat, p: nat)
    requires Ready(cfg, st, i) && i < |cfg.g.nodes| && SourcesHeld(cfg, st, i) && p in Src(cfg.g, i)
    ensures p < |st.hash| && (st.hash[p].owned <==> Managed(cfg.g, p))
  {
    assert p < |st.hash| && (st.hash[p].owned ==> Owns(cfg, st, p));
    if Managed(cfg.g, p) {
      assert Root(cfg.g, p) == p && Needed(cfg.g, i, p);
      NeededOwned(cfg, st, i, p);
    }
  }

  // The state before node i decides as the graph does.
  lemma ReusableExactlyWhen(cfg: Config, st: State, i: nat, p: nat)
    requires Ready(cfg, st, i) && i < |cfg.g.nodes| && SourcesHeld(cfg, st, i)
    ensures Reusable(cfg, st, cfg.g.nodes[i], p) <==> Overwritable(cfg.g, i, p)
  {
    if p in Src(cfg.g, i) {
      SourceOwned(cfg, st, i, p);
      if Managed(cfg.g, p) { CountersSay(cfg, st, i, p); }
      hide WellFormed, MemInv, CountInv, ViewInv, DeadInv, EverInv, SafeInv, SourcesHeld;
    }
  }

  lemma FirstReusableIs(cfg: Config, st: State, i: nat, j: nat)
    requires Ready(cfg, st, i) && i < |cfg.g.nodes| && SourcesHeld(cfg, st, i)
    ensures FirstReusable(cfg, st, cfg.g.nodes[i], j) <==> FirstTaken(cfg.g, i, j)
  {
    assert InRange(cfg.g);
    hide WellFormed, ValidConfig, LifeInv, CountInv, SafeInv, SourcesHeld, Reusable, Overwritable;
    forall p: nat ensures Reusable(cfg, st, cfg.g.nodes[i], p) <==> Overwritable(cfg.g, i, p) {
      ReusableExactlyWhen(cfg, st, i, p);
    }
  }

  lemma NodeInPlace(cfg: Config, st: State, st': State, ids: Ids, i: nat, b: nat)
    requires InPlace(cfg, st, ids) && Ready(cfg, st, i) && i < |cfg.g.nodes| && SourcesHeld(cfg, st, i)
    requires Allocation(cfg, st, st', cfg.g.nodes[i], b) && Given(ids.nodes, i, b)
    ensures InPlace(cfg, st', ids)
  {
    var g, n := cfg.g, cfg.g.nodes[i];
    NodeAlive(cfg, st, i);
    assert st.hash[n].owned ==> Owns(cfg, st, n);
    hide InPlace;
    if Managed(g, n) && n !in st.ever {
      NewIsFirst(cfg, st, i, n);
      assert InRange(g);
      if p: nat :| Reusable(cfg, st, n, p) {
        var j: nat :| FirstReusable(cfg, st, n, j) && TakenOver(cfg, st, st', n, g.tensors[n].src[j]);
        FirstReusableIs(cfg, st, i, j);
        TakenInPlace(cfg, st, st', ids, i, j);
      } else {
        forall j: nat ensures !FirstTaken(g, i, j) { FirstReusableIs(cfg, st, i, j); }
        hide FirstTaken, FirstAsked;
        PlacedBuffer(cfg, st, st', n, b);
        hide WellFormed, MemInv, Allocation, PlacedIn;
        AskedNow(cfg, st', ids, n, i);
        PlacesGain(cfg, st, st', ids, n);
      }
    }
  }

  lemma TakenInPlace(cfg: Config, st: State, st': State, ids: Ids, i: nat, j: nat)
    requires InPlace(cfg, st, ids) && MemInv(cfg, st) && i < |cfg.g.nodes| && j < |Src(cfg.g, i)|
    requires var n, p := cfg.g.nodes[i], Src(cfg.g, i)[j];
             && n !in st.ever && Managed(cfg.g, n) && n != p && st.hash[p].owned && TakenOver(cfg, st, st', n, p)
             && n !in cfg.g.leafs && FirstAsked(cfg.g, n, i) && FirstTaken(cfg.g, i, j)
    ensures InPlace(cfg, st', ids)
  {
    var g, n, p := cfg.g, cfg.g.nodes[i], Src(cfg.g, i)[j];
    assert InRange(g);
    InheritedGains(cfg, st, st', n, p);
    assert SamePlace(st', n, p);
    hide WellFormed, MemInv, InPlace, TakenOver, Given, Overwritable;
    forall k: nat | FirstAsked(g, n, k) ensures k == i {}
    forall l: nat | FirstTaken(g, i, l) ensures l == j {}
    assert forall l: nat :: !FirstLeaf(g, n, l);
    PlacesGain(cfg, st, st', ids, n);
  }

  // ---- counting and giving back move nothing ----

  lemma CountingInPlace(cfg: Config, st: State, ids: Ids, h: seq<HashNode>)
    requires InPlace(cfg, st, ids) && |h| == |st.hash|
    requires forall t :: 0 <= t < |h| ==> h[t].bufferId == st.hash[t].bufferId && h[t].addr == st.hash[t].addr
    ensures InPlace(cfg, st.(hash := h), ids)
  {
    hide WellFormed, RightPlace;
    PlacesStay(cfg, st, st.(hash := h), ids);
  }

  lemma UpdatedInPlace(cfg: Config, st: State, ids: Ids, i: nat, j: nat)
    requires InPlace(cfg, st, ids) && Updating(cfg, st, i, j) && j < |Src(cfg.g, i)| && Src(cfg.g, i)[j] < |st.hash|
    ensures InPlace(cfg, Updated(cfg, st, Src(cfg.g, i)[j]), ids)
  {
    assert InRange(cfg.g);
    UpdatedShape(cfg, st, i, j);
    hide WellFormed, InRange, ValidConfig, RightPlace, Updating, Updated;
    UpdatedStays(cfg, st, Src(cfg.g, i)[j]);
    PlacesStay(cfg, st, Updated(cfg, st, Src(cfg.g, i)[j]), ids);
  }

  lemma UpdatedShape(cfg: Config, st: State, i: nat, j: nat)
    requires Updating(cfg, st, i, j) && j < |Src(cfg.g, i)| && Src(cfg.g, i)[j] < |st.hash|
    ensures Shape(cfg, Updated(cfg, st, Src(cfg.g, i)[j]))
  {
    hide WellFormed, Updated;
    UpdatedKeeps(cfg, st, i, j);
  }

  lemma UpdatedStays(cfg: Config, st: State, v: nat)
    requires Shape(cfg, st) && v < |st.hash| && InRange(cfg.g)
    ensures Stable(st, Updated(cfg, st, v)) && Updated(cfg, st, v).ever == st.ever
  {
    hide WellFormed, ValidConfig;
  }

  // Every tensor that the allocator manages is planned, and where the ids and the graph say.
  lemma PlannedWhereGiven(cfg: Config, st: State, ids: Ids, t: nat)
    requires Ready(cfg, st, |cfg.g.nodes|) && InPlace(cfg, st, ids) && t < |st.hash| && Managed(cfg.g, t)
    requires t in cfg.g.leafs || exists k :: 0 <= k < |cfg.g.nodes| && Asks(cfg.g, k, t)
    ensures t in st.ever && RightPlace(cfg, st, ids, t)
  {
    var g := cfg.g;
    if k :| 0 <= k < |g.nodes| && Asks(g, k, t) && g.nodes[k] == t { assert g.nodes[..|g.nodes|][k] == t; }
    assert Placed0(g, |g.nodes|, t);
  }
}
