// The state of the graph allocator as a value, and what its invariants are.
module PlanSpec {
  import opened ChunkSpec
  import opened GraphSpec

  datatype HashNode = HashNode(nChildren: int, nViews: int, bufferId: nat, addr: Address, owned: bool)

  // bufs maps a buffer to its allocator; sizes[k][t] is the unpadded size of tensor t in allocator k
  datatype Config = Config(g: Graph, bufs: seq<nat>, sizes: seq<seq<nat>>, aligns: seq<nat>)

  // hash: the hash values; ever: tensors that were given memory; lives: live ranges per allocator
  datatype State = State(hash: seq<HashNode>, ever: set<nat>, lives: seq<Live>)

  ghost predicate ValidConfig(cfg: Config) {
    && WellFormed(cfg.g)
    && |cfg.sizes| == |cfg.aligns|
    && (forall b :: 0 <= b < |cfg.bufs| ==> cfg.bufs[b] < |cfg.aligns|)
    && (forall k :: 0 <= k < |cfg.aligns| ==> cfg.aligns[k] > 0 && |cfg.sizes[k]| == |cfg.g.tensors|)
    && (forall k, t :: 0 <= k < |cfg.aligns| && 0 <= t < |cfg.g.tensors| ==>
          0 < cfg.sizes[k][t] && AlignedOffset(cfg.sizes[k][t], cfg.aligns[k]) <= HALF_SIZE_MAX)
  }

  function Padded(cfg: Config, k: nat, t: nat): nat
    requires ValidConfig(cfg) && k < |cfg.aligns| && t < |cfg.g.tensors|
  {
    AlignedOffset(cfg.sizes[k][t], cfg.aligns[k])
  }

  ghost predicate Shape(cfg: Config, st: State) {
    && ValidConfig(cfg)
    && |st.hash| == |cfg.g.tensors| && |st.lives| == |cfg.aligns|
    && (forall t :: 0 <= t < |st.hash| ==> st.hash[t].bufferId < |cfg.bufs|)
    && (forall t :: t in st.ever ==> t < |st.hash|)
  }

  // the allocator that tensor t was placed in
  function Tal(cfg: Config, hash: seq<HashNode>, t: nat): nat
    requires t < |hash| && hash[t].bufferId < |cfg.bufs|
  {
    cfg.bufs[hash[t].bufferId]
  }

  ghost predicate InRegion(cfg: Config, hash: seq<HashNode>, t: nat, k: nat, c: nat, x: int)
    requires ValidConfig(cfg) && |hash| == |cfg.g.tensors| && t < |hash| && hash[t].bufferId < |cfg.bufs|
  {
    && Tal(cfg, hash, t) == k && hash[t].addr.chunk == c
    && hash[t].addr.offset <= x < hash[t].addr.offset + Padded(cfg, k, t)
  }

  // the byte ranges planned for t and u meet
  ghost predicate Overlap(cfg: Config, hash: seq<HashNode>, t: nat, u: nat)
    requires ValidConfig(cfg) && |hash| == |cfg.g.tensors| && t < |hash| && u < |hash|
    requires hash[t].bufferId < |cfg.bufs| && hash[u].bufferId < |cfg.bufs|
  {
    exists k, c, x :: InRegion(cfg, hash, t, k, c, x) && InRegion(cfg, hash, u, k, c, x)
  }

  // an allocated tensor owns exactly the live range at its address
  ghost predicate Owns(cfg: Config, st: State, t: nat)
    requires Shape(cfg, st) && t < |st.hash|
  {
    var k := Tal(cfg, st.hash, t);
    && t in st.ever && Managed(cfg.g, t)
    && st.hash[t].addr in st.lives[k]
    && st.lives[k][st.hash[t].addr] == Padded(cfg, k, t)
  }

  ghost predicate OwnerOf(cfg: Config, st: State, k: nat, a: Address, t: nat)
    requires Shape(cfg, st)
  {
    t < |st.hash| && st.hash[t].owned && Tal(cfg, st.hash, t) == k && st.hash[t].addr == a
  }

  // Live ranges and allocated tensors correspond one to one.
  ghost predicate MemInv(cfg: Config, st: State) {
    && Shape(cfg, st)
    && (forall t :: 0 <= t < |st.hash| && st.hash[t].owned ==> Owns(cfg, st, t))
    && (forall k, a, t, u :: OwnerOf(cfg, st, k, a, t) && OwnerOf(cfg, st, k, a, u) ==> t == u)
    && (forall k, a :: 0 <= k < |st.lives| && a in st.lives[k] ==> exists t :: OwnerOf(cfg, st, k, a, t))
    && (forall k :: 0 <= k < |st.lives| ==> LiveDisjoint(st.lives[k]))
  }

  lemma RegionCovered(cfg: Config, st: State, t: nat, k: nat, c: nat, x: int)
    requires MemInv(cfg, st) && t < |st.hash| && st.hash[t].owned
    requires InRegion(cfg, st.hash, t, k, c, x)
    ensures k < |st.lives| && Covers(st.lives[k], st.hash[t].addr, c, x)
    ensures OwnerOf(cfg, st, k, st.hash[t].addr, t)
  {
    hide WellFormed;
    assert Owns(cfg, st, t);
  }

  // different allocated tensors never share a byte
  lemma AllocatedApart(cfg: Config, st: State, t: nat, u: nat)
    requires MemInv(cfg, st) && t < |st.hash| && u < |st.hash| && t != u
    requires st.hash[t].owned && st.hash[u].owned
    ensures !Overlap(cfg, st.hash, t, u)
  {
    hide WellFormed;
    if Overlap(cfg, st.hash, t, u) {
      var k, c, x :| InRegion(cfg, st.hash, t, k, c, x) && InRegion(cfg, st.hash, u, k, c, x);
      RegionCovered(cfg, st, t, k, c, x);
      RegionCovered(cfg, st, u, k, c, x);
      hide InRegion, Overlap;
      assert false;
    }
  }

  // ---- the three ways in which memory changes hands ----

  function Placed(st: State, t: nat, bufferId: nat, k: nat, a: Address, n: nat): State
    requires t < |st.hash| && k < |st.lives|
  {
    State(st.hash[t := st.hash[t].(owned := true, bufferId := bufferId, addr := a)],
          st.ever + {t}, st.lives[k := Extended(st.lives[k], a, n)])
  }

  lemma PlacedKeeps(cfg: Config, st: State, t: nat, bufferId: nat, k: nat, a: Address)
    requires MemInv(cfg, st) && t < |st.hash| && Managed(cfg.g, t) && !st.hash[t].owned
    requires bufferId < |cfg.bufs| && k == cfg.bufs[bufferId] && a !in st.lives[k]
    requires LiveDisjoint(st.lives[k][a := Padded(cfg, k, t)])
    ensures MemInv(cfg, Placed(st, t, bufferId, k, a, Padded(cfg, k, t)))
  {
    hide WellFormed;
    var st' := Placed(st, t, bufferId, k, a, Padded(cfg, k, t));
    forall u | 0 <= u < |st'.hash| && st'.hash[u].owned
      ensures Owns(cfg, st', u)
    {
      if u != t { assert Owns(cfg, st, u); }
    }
    forall l, b, u | OwnerOf(cfg, st', l, b, u) && u != t
      ensures OwnerOf(cfg, st, l, b, u) && Owns(cfg, st, u) && (l == k ==> b != a)
    {
      assert OwnerOf(cfg, st, l, b, u);
    }
    forall l, b, u, w | OwnerOf(cfg, st', l, b, u) && OwnerOf(cfg, st', l, b, w)
      ensures u == w
    {
      if u != t && w != t { assert OwnerOf(cfg, st, l, b, u) && OwnerOf(cfg, st, l, b, w); }
    }
    forall l, b | 0 <= l < |st'.lives| && b in st'.lives[l]
      ensures exists u :: OwnerOf(cfg, st', l, b, u)
    {
      if l == k && b == a {
        assert OwnerOf(cfg, st', l, b, t);
      } else {
        var u :| OwnerOf(cfg, st, l, b, u);
        assert OwnerOf(cfg, st', l, b, u);
      }
    }
  }

  function Released(st: State, t: nat, k: nat): State
    requires t < |st.hash| && k < |st.lives|
  {
    st.(hash := st.hash[t := st.hash[t].(owned := false)],
        lives := st.lives[k := st.lives[k] - {st.hash[t].addr}])
  }

  lemma ReleasedKeeps(cfg: Config, st: State, t: nat)
    requires MemInv(cfg, st) && t < |st.hash| && st.hash[t].owned
    ensures MemInv(cfg, Released(st, t, Tal(cfg, st.hash, t)))
  {
    hide WellFormed;
    var k := Tal(cfg, st.hash, t);
    var st' := Released(st, t, k);
    assert Owns(cfg, st, t) && OwnerOf(cfg, st, k, st.hash[t].addr, t);
    forall l, b, u | OwnerOf(cfg, st', l, b, u)
      ensures OwnerOf(cfg, st, l, b, u) && u != t && !(l == k && b == st.hash[t].addr)
    {
      assert OwnerOf(cfg, st, l, b, u);
    }
    forall u | 0 <= u < |st'.hash| && st'.hash[u].owned
      ensures Owns(cfg, st', u)
    {
      assert Owns(cfg, st, u);
      assert OwnerOf(cfg, st', Tal(cfg, st'.hash, u), st'.hash[u].addr, u);
    }
    forall l, b | 0 <= l < |st'.lives| && b in st'.lives[l]
      ensures exists u :: OwnerOf(cfg, st', l, b, u)
    {
      var u :| OwnerOf(cfg, st, l, b, u);
      assert OwnerOf(cfg, st', l, b, u);
    }
    forall l | 0 <= l < |st'.lives| ensures LiveDisjoint(st'.lives[l]) {
      assert forall b, c, x :: Covers(st'.lives[l], b, c, x) ==> Covers(st.lives[l], b, c, x);
    }
  }

  // t takes over the first m bytes of p's range
  function Inherited(st: State, t: nat, p: nat, k: nat, m: nat): State
    requires t < |st.hash| && p < |st.hash| && k < |st.lives|
  {
    var h := st.hash[t := st.hash[t].(owned := true, bufferId := st.hash[p].bufferId, addr := st.hash[p].addr)];
    State(h[p := st.hash[p].(owned := false)], st.ever + {t}, st.lives[k := Extended(st.lives[k], st.hash[p].addr, m)])
  }

  lemma InheritedKeeps(cfg: Config, st: State, t: nat, p: nat)
    requires MemInv(cfg, st) && t < |st.hash| && p < |st.hash| && t != p
    requires Managed(cfg.g, t) && !st.hash[t].owned && st.hash[p].owned
    requires Padded(cfg, Tal(cfg, st.hash, p), t) <= Padded(cfg, Tal(cfg, st.hash, p), p)
    ensures MemInv(cfg, Inherited(st, t, p, Tal(cfg, st.hash, p), Padded(cfg, Tal(cfg, st.hash, p), t)))
  {
    hide WellFormed;
    var k := Tal(cfg, st.hash, p);
    var st1 := Released(st, p, k);
    var a, n := st.hash[p].addr, Padded(cfg, k, t);
    ReleasedKeeps(cfg, st, p);
    var st2 := Inherited(st, t, p, k, n);
    assert Owns(cfg, st, p);
    forall b, d, c, x | Covers(st2.lives[k], b, c, x) && Covers(st2.lives[k], d, c, x)
      ensures b == d
    {
      assert Covers(st.lives[k], b, c, x) && Covers(st.lives[k], d, c, x);
    }
    assert st1.lives[k][a := n] == st2.lives[k];
    PlacedKeeps(cfg, st1, t, st.hash[p].bufferId, k, a);
    assert Placed(st1, t, st.hash[p].bufferId, k, a, n) == st2;
  }
}
