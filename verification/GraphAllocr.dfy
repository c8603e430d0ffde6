// The graph allocator: plans an address for every tensor of a computation graph.
module GraphAllocr {
  import opened ChunkSpec
  import opened DynTallocr
  import opened GraphSpec
  import opened PlanSpec
  import opened PlanSteps
  import opened PlanUpdates
  import opened PlanLoading
  import opened PlanRelease
  import opened PlanBuffers
  import Arith

  // every tensor that was ever given memory lies below the high-water mark of its chunk
  ghost predicate Fits(cfg: Config, st: State, views: seq<View>) {
    && Shape(cfg, st) && |views| == |cfg.aligns|
    && (forall t :: t in st.ever ==> FitsIn(cfg, st.hash, t, views[Tal(cfg, st.hash, t)]))
  }

  ghost predicate FitsIn(cfg: Config, hash: seq<HashNode>, t: nat, v: View)
    requires ValidConfig(cfg) && |hash| == |cfg.g.tensors| && t < |hash| && hash[t].bufferId < |cfg.bufs|
  {
    var k := Tal(cfg, hash, t);
    var a := hash[t].addr;
    && a.chunk < |v| && a.offset % cfg.aligns[k] == 0 && a.offset + Padded(cfg, k, t) <= v[a.chunk].maxSize
  }

  ghost predicate AllGrown(vs: seq<View>, ws: seq<View>) {
    |vs| == |ws| && forall k :: 0 <= k < |vs| ==> Grown(vs[k], ws[k])
  }

  lemma FitsKept(cfg: Config, st: State, st': State, vs: seq<View>, ws: seq<View>, t: nat)
    requires Fits(cfg, st, vs) && AllGrown(vs, ws) && Gains(cfg, st, st', t)
    requires FitsIn(cfg, st'.hash, t, ws[Tal(cfg, st'.hash, t)])
    ensures Fits(cfg, st', ws)
  {
    hide WellFormed;
    forall u | u in st'.ever ensures FitsIn(cfg, st'.hash, u, ws[Tal(cfg, st'.hash, u)]) {
      if u != t { assert FitsIn(cfg, st.hash, u, vs[Tal(cfg, st.hash, u)]); }
    }
  }

  // memory for t in allocator k, seen from the planner's state
  lemma PlaceKeeps(cfg: Config, st: State, st': State, vs: seq<View>, ws: seq<View>, t: nat, bufferId: nat, a: Address)
    requires MemInv(cfg, st) && Fits(cfg, st, vs) && AllGrown(vs, ws)
    requires t < |st.hash| && bufferId < |cfg.bufs| && Managed(cfg.g, t) && t !in st.ever
    requires PlacedAt(cfg, st, st', t, bufferId, a)
    requires var k := cfg.bufs[bufferId]; LiveRange(ws[k], a, Padded(cfg, k, t), cfg.aligns[k])
    ensures MemInv(cfg, st') && Fits(cfg, st', ws) && PlacedIn(cfg, st, st', t, bufferId)
  {
    hide WellFormed;
    PlacedGains(cfg, st, st', t, bufferId);
    hide MemInv;
    FitsKept(cfg, st, st', vs, ws, t);
  }

  lemma TakeOverKeeps(cfg: Config, st: State, st': State, vs: seq<View>, ws: seq<View>, t: nat, p: nat)
    requires MemInv(cfg, st) && Fits(cfg, st, vs) && AllGrown(vs, ws)
    requires t < |st.hash| && p < |st.hash| && t != p && Managed(cfg.g, t) && t !in st.ever && st.hash[p].owned
    requires TakenOver(cfg, st, st', t, p)
    ensures MemInv(cfg, st') && Fits(cfg, st', ws)
  {
    hide WellFormed;
    InheritedGains(cfg, st, st', t, p);
    InheritedMem(cfg, st, st', t, p);
    hide MemInv;
    assert FitsIn(cfg, st.hash, p, vs[Tal(cfg, st.hash, p)]);
    FitsKept(cfg, st, st', vs, ws, t);
  }

  lemma OwnedRange(cfg: Config, st: State, p: nat)
    requires MemInv(cfg, st) && p < |st.hash| && st.hash[p].owned
    ensures var k := Tal(cfg, st.hash, p);
            k < |cfg.aligns| && st.hash[p].addr in st.lives[k] &&
            st.lives[k][st.hash[p].addr] == Padded(cfg, k, p)
  {
    assert Owns(cfg, st, p);
  }

  lemma FitsAfter(cfg: Config, st: State, st': State, vs: seq<View>, ws: seq<View>)
    requires Fits(cfg, st, vs) && AllGrown(vs, ws) && Shape(cfg, st') && st'.ever == st.ever
    requires forall t :: 0 <= t < |st.hash| ==>
               st'.hash[t].addr == st.hash[t].addr && st'.hash[t].bufferId == st.hash[t].bufferId
    ensures Fits(cfg, st', ws)
  {
    hide WellFormed;
    forall u | u in st'.ever ensures FitsIn(cfg, st'.hash, u, ws[Tal(cfg, st'.hash, u)]) {
      assert FitsIn(cfg, st.hash, u, vs[Tal(cfg, st.hash, u)]);
    }
  }

  // counting touches neither owners nor addresses
  lemma RecountedValid(cfg: Config, st: State, vs: seq<View>, v: nat)
    requires MemInv(cfg, st) && Fits(cfg, st, vs) && v < |st.hash|
    ensures MemInv(cfg, st.(hash := Recounted(cfg.g, st.hash, v)))
    ensures Fits(cfg, st.(hash := Recounted(cfg.g, st.hash, v)), vs)
  {
    AllGrownSame(vs);
    OwnersKept(cfg, st, Recounted(cfg.g, st.hash, v));
    FitsAfter(cfg, st, st.(hash := Recounted(cfg.g, st.hash, v)), vs, vs);
  }

  // nor does any other change of the counters
  lemma CountingValid(cfg: Config, st: State, vs: seq<View>, h: seq<HashNode>)
    requires MemInv(cfg, st) && Fits(cfg, st, vs) && |h| == |st.hash|
    requires forall t :: 0 <= t < |h| ==>
               h[t].owned == st.hash[t].owned && h[t].bufferId == st.hash[t].bufferId && h[t].addr == st.hash[t].addr
    ensures MemInv(cfg, st.(hash := h)) && Fits(cfg, st.(hash := h), vs)
  {
    hide WellFormed;
    AllGrownSame(vs);
    OwnersKept(cfg, st, h);
    hide MemInv;
    FitsAfter(cfg, st, st.(hash := h), vs, vs);
  }

  lemma LoadedCounting(cfg: Config, st: State, vs: seq<View>, h: seq<HashNode>)
    requires MemInv(cfg, st) && Fits(cfg, st, vs) && Loaded(cfg, st) && |h| == |st.hash|
    requires forall t :: 0 <= t < |h| ==>
               h[t].owned == st.hash[t].owned && h[t].bufferId == st.hash[t].bufferId && h[t].addr == st.hash[t].addr
    ensures MemInv(cfg, st.(hash := h)) && Fits(cfg, st.(hash := h), vs) && Loaded(cfg, st.(hash := h))
  {
    hide WellFormed;
    CountingValid(cfg, st, vs, h);
  }

  // nothing is placed and nothing is counted
  lemma StartState(cfg: Config, st: State, vs: seq<View>)
    requires ValidConfig(cfg) && 0 < |cfg.bufs| && |st.lives| == |vs| == |cfg.aligns| && st.ever == {}
    requires forall k :: 0 <= k < |st.lives| ==> st.lives[k] == map[]
    requires st.hash == seq(|cfg.g.tensors|, _ => HashNode(0, 0, 0, Address(0, 0), false))
    ensures MemInv(cfg, st) && Fits(cfg, st, vs) && Loaded(cfg, st) && Counted(cfg, st, 0, 0, 0)
    ensures InRange(cfg.g)
  {
    CountedStart(cfg, st);
  }

  // sizes stay ordered when padded, and what is left over needs no padding
  lemma ExtraSpace(cfg: Config, k: nat, t: nat, p: nat)
    requires ValidConfig(cfg) && k < |cfg.aligns| && t < |cfg.g.tensors| && p < |cfg.g.tensors|
    requires cfg.sizes[k][t] <= cfg.sizes[k][p]
    ensures 0 < Padded(cfg, k, t) <= Padded(cfg, k, p)
    ensures AlignedOffset(Padded(cfg, k, p) - Padded(cfg, k, t), cfg.aligns[k]) ==
            Padded(cfg, k, p) - Padded(cfg, k, t)
  {
    var n, m := Padded(cfg, k, t), Padded(cfg, k, p);
    AlignedLeast(cfg.sizes[k][t], cfg.aligns[k], m);
    Arith.MultipleSum(m, n, cfg.aligns[k]);
    AlignedLeast(m - n, cfg.aligns[k], m - n);
  }

  lemma AllGrownSame(vs: seq<View>)
    ensures AllGrown(vs, vs)
  {
  }

  lemma AllGrownAt(vs: seq<View>, k: nat, v: View)
    requires k < |vs| && Grown(vs[k], v)
    ensures AllGrown(vs, vs[k := v])
  {
  }

  lemma NoneReusable(cfg: Config, st: State, t: nat)
    requires Shape(cfg, st) && t < |st.hash| && !CanInplace(cfg.g.tensors[t].op)
    ensures forall p: nat :: !Reusable(cfg, st, t, p)
  {
  }

  // the tensor that t would take over is smaller than t
  ghost predicate Outgrown(cfg: Config, st: State, t: nat) {
    && Shape(cfg, st) && t < |st.hash| && Managed(cfg.g, t) && !st.hash[t].owned
    && CanInplace(cfg.g.tensors[t].op)
    && exists j: nat :: FirstReusable(cfg, st, t, j) && SmallerIn(cfg, st, cfg.g.tensors[t].src[j], t)
  }

  // in the allocator of p
  ghost predicate SmallerIn(cfg: Config, st: State, p: nat, t: nat)
    requires Shape(cfg, st) && p < |st.hash| && t < |st.hash|
  {
    var k := Tal(cfg, st.hash, p);
    cfg.sizes[k][p] < cfg.sizes[k][t]
  }

  // a node, and a source of the same layout that is smaller
  ghost predicate UnequalSizes(cfg: Config)
    requires InRange(cfg.g)
  {
    exists i, p, k :: 0 <= i < |cfg.g.nodes| && p in Src(cfg.g, i) && 0 <= k < |cfg.sizes| &&
                      UnequalPair(cfg, k, p, cfg.g.nodes[i])
  }

  predicate UnequalPair(cfg: Config, k: nat, p: nat, t: nat) {
    && p < |cfg.g.tensors| && t < |cfg.g.tensors| && k < |cfg.sizes| && p < |cfg.sizes[k]| && t < |cfg.sizes[k]|
    && CanInplace(cfg.g.tensors[t].op) && cfg.g.tensors[t].layout == cfg.g.tensors[p].layout
    && cfg.sizes[k][p] < cfg.sizes[k][t]
  }

  lemma OutgrownNode(cfg: Config, st: State, i: nat)
    requires InRange(cfg.g) && i < |cfg.g.nodes| && Outgrown(cfg, st, cfg.g.nodes[i])
    ensures UnequalSizes(cfg)
  {
    var n := cfg.g.nodes[i];
    var j: nat :| FirstReusable(cfg, st, n, j) && SmallerIn(cfg, st, cfg.g.tensors[n].src[j], n);
    var p := cfg.g.tensors[n].src[j];
    hide WellFormed;
    assert p in Src(cfg.g, i) && UnequalPair(cfg, Tal(cfg, st.hash, p), p, n);
  }

  class GraphAllocr {
    const cfg: Config
    const tallocs: seq<DynTallocr>
    var hash: seq<HashNode>
    ghost var ever: set<nat>
    ghost var lives: seq<Live>   // the live ranges of the allocators
    ghost var views: seq<View>   // and their chunks
    ghost var Repr: set<object>

    // the allocators are separate objects
    ghost predicate Apart()
      reads this`Repr, Repr
    {
      && this !in Repr
      && (forall k :: 0 <= k < |tallocs| ==> tallocs[k] in Repr && tallocs[k].Repr <= Repr)
      && (forall k, l :: 0 <= k < |tallocs| && 0 <= l < |tallocs| ==> tallocs[k] !in tallocs[l].Repr)
      && (forall k, l :: 0 <= k < |tallocs| && 0 <= l < |tallocs| && k != l ==>
            tallocs[k] != tallocs[l] && tallocs[k].Repr !! tallocs[l].Repr)
    }

    // the allocators are intact, and the ghost fields show their state
    ghost predicate Heap()
      reads this`lives, this`views, this`Repr, Repr
    {
      && |tallocs| == |lives| == |views| == |cfg.aligns| && Apart()
      && (forall k :: 0 <= k < |tallocs| ==>
            tallocs[k].Valid() && tallocs[k].alignment == cfg.aligns[k] &&
            tallocs[k].live == lives[k] && tallocs[k].View() == views[k])
    }

    // the same, but what the ghost fields say about allocator k may be out of date
    ghost predicate HeapBut(k: nat)
      reads this`lives, this`views, this`Repr, Repr
    {
      && k < |tallocs| == |lives| == |views| == |cfg.aligns| && Apart()
      && (forall l :: 0 <= l < |tallocs| ==>
            tallocs[l].Valid() && tallocs[l].Shape() && tallocs[l].alignment == cfg.aligns[l] &&
            (l != k ==> tallocs[l].live == lives[l] && tallocs[l].View() == views[l]))
    }

    // an allocator without live ranges, as a reset leaves it
    ghost predicate Fresh()
      reads this`lives, this`views, this`Repr, Repr
    {
      && ValidConfig(cfg) && Heap() && this !in Repr && |lives| == |views| == |cfg.aligns|
      && (forall k :: 0 <= k < |lives| ==> lives[k] == map[])
    }

    // One allocator per distinct buffer type.
    constructor (cfg: Config, maxSizes: seq<nat>)
      requires ValidConfig(cfg) && |maxSizes| == |cfg.aligns|
      ensures Fresh() && this.cfg == cfg && fresh(Repr)
    {
      hide WellFormed, Partition, DynTallocr.Shape, DynTallocr.View;
      var ts: seq<DynTallocr> := [];
      ghost var r: set<object> := {};
      for k := 0 to |maxSizes|
        invariant |ts| == k && fresh(r)
        invariant forall l :: 0 <= l < k ==>
                    ts[l] in r && ts[l].Repr <= r && ts[l].Valid() && ts[l].alignment == cfg.aligns[l] &&
                    ts[l].live == map[] && ts[l].View() == []
        invariant forall l, m :: 0 <= l < k && 0 <= m < k ==> ts[l] !in ts[m].Repr
        invariant forall l, m :: 0 <= l < k && 0 <= m < k && l != m ==> ts[l] != ts[m] && ts[l].Repr !! ts[m].Repr
      {
        var t := new DynTallocr(cfg.aligns[k], maxSizes[k]);
        r := r + {t} + t.Repr;
        ts := ts + [t];
      }
      this.cfg := cfg;
      this.tallocs := ts;
      this.hash := [];
      this.ever := {};
      this.lives := seq(|ts|, _ => map[]);
      this.views := seq(|ts|, _ => []);
      this.Repr := r;
    }

    ghost function Now(): State
      reads this`hash, this`ever, this`lives
    {
      State(hash, ever, lives)
    }

    ghost predicate Valid()
      reads this, Repr
    {
      this !in Repr && Heap() && MemInv(cfg, Now()) && Fits(cfg, Now(), views)
    }

    // an allocator has reached one of its limits
    ghost predicate Limited()
      reads this`views
    {
      exists k :: 0 <= k < |views| && AtLimit(views[k])
    }

    // Why planning can stop: an allocator has reached one of its limits, or a node is larger than a
    // source of the same layout that it would take over.
    ghost predicate Aborted()
      requires InRange(cfg.g)
      reads this`views
    {
      Limited() || UnequalSizes(cfg)
    }

    // ---- the allocators, seen from here ----

    method AllocIn(k: nat, size: nat) returns (ok: bool, addr: Address)
      requires Heap() && k < |lives| && k < |cfg.aligns| && cfg.aligns[k] > 0
      requires 0 < size && AlignedOffset(size, cfg.aligns[k]) <= HALF_SIZE_MAX
      modifies this`Repr, this`lives, this`views, Repr
      ensures Heap() && fresh(Repr - old(Repr)) && old(Repr) <= Repr
      ensures |lives| == |old(lives)| && AllGrown(old(views), views)
      ensures ok ==> addr !in old(lives)[k] && LiveDisjoint(lives[k])
      ensures ok ==> LiveRange(views[k], addr, AlignedOffset(size, cfg.aligns[k]), cfg.aligns[k])
      ensures ok ==> lives == old(lives)[k := Extended(old(lives)[k], addr, AlignedOffset(size, cfg.aligns[k]))]
      ensures !ok ==> Limited()
    {
      hide LiveRange, LiveDisjoint, Grown, Partition, AlignedOffset, AtLimit, DynTallocr.View,
           DynTallocr.Shape, DynTallocr.Valid, GraphAllocr.Apart, GraphAllocr.Heap, GraphAllocr.HeapBut,
           AllGrown, Extended;
      HeapSizes();
      ok, addr := AllocFrom(k, size);
      AllGrownAt(views, k, tallocs[k].View());
      Record(k);
      assert !ok ==> AtLimit(views[k]);
    }

    lemma HeapSizes()
      requires Heap()
      ensures |tallocs| == |lives| == |views| == |cfg.aligns|
    {
    }

    // brings the ghost fields up to date after a change in allocator k
    ghost method Record(k: nat)
      requires k < |tallocs| && HeapBut(k) && tallocs[k].Shape()
      modifies this`lives, this`views
      ensures Heap() && lives == old(lives)[k := tallocs[k].live] && tallocs[k].Shape()
      ensures views == old(views)[k := tallocs[k].View()] && tallocs[k].View() == old(tallocs[k].View())
    {
      hide DynTallocr.View, DynTallocr.Shape, DynTallocr.Valid;
      assert forall l :: 0 <= l < |tallocs| ==> this !in tallocs[l].Repr && this as object != tallocs[l];
      lives := lives[k := tallocs[k].live];
      views := views[k := tallocs[k].View()];
    }

    method AllocFrom(k: nat, size: nat) returns (ok: bool, addr: Address)
      requires Heap() && k < |tallocs| && k < |cfg.aligns| && k < |lives| && k < |views|
      requires cfg.aligns[k] > 0 && 0 < size && AlignedOffset(size, cfg.aligns[k]) <= HALF_SIZE_MAX
      modifies this`Repr, Repr
      ensures HeapBut(k) && fresh(Repr - old(Repr)) && old(Repr) <= Repr && tallocs[k].Shape()
      ensures lives == old(lives) && views == old(views)
      ensures Grown(views[k], tallocs[k].View())
      ensures var n := AlignedOffset(size, cfg.aligns[k]);
              if ok then addr !in lives[k] && LiveDisjoint(tallocs[k].live) &&
                         tallocs[k].live == Extended(lives[k], addr, n) &&
                         LiveRange(tallocs[k].View(), addr, n, cfg.aligns[k])
              else tallocs[k].live == lives[k]
      ensures !ok ==> AtLimit(tallocs[k].View())
    {
      hide Chosen, Allocated, Partition, LiveRange, LiveDisjoint, Grown, DynTallocr.View, DynTallocr.Shape;
      ok, addr := tallocs[k].Alloc(size);
      Repr := Repr + tallocs[k].Repr;
    }

    method FreeIn(k: nat, addr: Address, size: nat, ghost owner: Address) returns (ok: bool)
      requires Heap() && k < |lives| && k < |cfg.aligns| && cfg.aligns[k] > 0
      requires 0 < size && owner in lives[k] && AlignedOffset(size, cfg.aligns[k]) <= lives[k][owner]
      requires addr == Address(owner.chunk, owner.offset + lives[k][owner] - AlignedOffset(size, cfg.aligns[k]))
      modifies this`lives, this`views, Repr
      ensures ok ==> Heap() && AllGrown(old(views), views)
      ensures ok ==> lives == old(lives)[k := Trimmed(old(lives)[k], owner, AlignedOffset(size, cfg.aligns[k]))]
      ensures !ok ==> Limited()
    {
      hide Freed, Partition, DynTallocr.View, DynTallocr.Shape;
      ok := tallocs[k].FreeBytes(addr, size, owner);
      if ok {
        lives := lives[k := tallocs[k].live];
        views := views[k := tallocs[k].View()];
      }
    }

    // ---- memory for one tensor ----

    // Looks for a source that node t can overwrite.
    method FindParent(t: nat) returns (j: int)
      requires MemInv(cfg, Now()) && t < |hash| && CanInplace(cfg.g.tensors[t].op)
      ensures j == -1 ==> forall p: nat :: !Reusable(cfg, Now(), t, p)
      ensures j != -1 ==> 0 <= j < |cfg.g.tensors[t].src| && FirstReusable(cfg, Now(), t, j)
      ensures j != -1 ==> cfg.g.tensors[t].src[j] < |hash| && hash[cfg.g.tensors[t].src[j]].owned
      ensures j != -1 ==> cfg.g.tensors[t].layout == cfg.g.tensors[cfg.g.tensors[t].src[j]].layout
    {
      var src := cfg.g.tensors[t].src;
      ghost var st := Now();
      for i := 0 to |src|
        invariant forall l :: 0 <= l < i ==> !Reusable(cfg, st, t, src[l])
      {
        var parent := src[i];
        if !hash[parent].owned {
          continue;
        }
        if OutputBehind(cfg.g, parent) {
          continue;
        }
        if cfg.g.tensors[t].layout != cfg.g.tensors[parent].layout {
          continue;
        }
        if hash[parent].nChildren == 1 && hash[parent].nViews == 0 {
          assert Owns(cfg, st, parent);
          if IsView(cfg.g, parent) {
            // the source would reuse the memory behind the view here, but views own no memory
            assert false;
          } else {
            return i;
          }
        }
      }
      return -1;
    }

    // Node t takes over the memory of p; what it does not need goes back. False: the node is larger
    // than its parent, or the free list is full (the source aborts).
    method TakeOver(t: nat, p: nat) returns (ok: bool)
      requires Valid() && t < |hash| && p < |hash| && t != p && Managed(cfg.g, t) && t !in ever
      requires hash[p].owned && cfg.g.tensors[t].layout == cfg.g.tensors[p].layout
      modifies this`hash, this`ever, this`lives, this`views, Repr
      ensures ok ==> Valid() && TakenOver(cfg, old(Now()), Now(), t, p)
      ensures !ok ==> Limited() || SmallerIn(cfg, old(Now()), p, t)
    {
      hide GraphAllocr.Heap, WellFormed, Fits;
      ghost var st, vs := Now(), views;
      var k := cfg.bufs[hash[p].bufferId];
      OwnedRange(cfg, st, p);
      hide ValidConfig, MemInv, Shape, AllGrown, Padded;
      var addr := hash[p].addr;
      hash := hash[t := hash[t].(owned := true, bufferId := hash[p].bufferId, addr := addr)]
                  [p := hash[p].(owned := false)];
      ever := ever + {t};
      ok := FreeExtraSpace(t, p, k, addr);
      if ok {
        assert TakenOver(cfg, st, Now(), t, p);
        TakeOverKeeps(cfg, st, Now(), vs, views, t, p);
      }
    }

    method FreeExtraSpace(t: nat, p: nat, k: nat, addr: Address) returns (ok: bool)
      requires ValidConfig(cfg) && Heap() && k < |lives| && k < |cfg.aligns|
      requires t < |cfg.g.tensors| && p < |cfg.g.tensors| && cfg.g.tensors[t].layout == cfg.g.tensors[p].layout
      requires addr in lives[k] && lives[k][addr] == Padded(cfg, k, p)
      modifies this`lives, this`views, Repr
      ensures ok ==> Heap() && Padded(cfg, k, t) <= Padded(cfg, k, p) && AllGrown(old(views), views)
      ensures ok ==> lives == old(lives)[k := Extended(old(lives)[k], addr, Padded(cfg, k, t))]
      ensures !ok ==> Limited() || cfg.sizes[k][p] < cfg.sizes[k][t]
    {
      hide WellFormed, GraphAllocr.Heap, AllGrown;
      var parentSize, nodeSize := cfg.sizes[k][p], cfg.sizes[k][t];
      if parentSize < nodeSize {
        return false;
      }
      ExtraSpace(cfg, k, t, p);
      parentSize := AlignedOffset(parentSize, cfg.aligns[k]);
      nodeSize := AlignedOffset(nodeSize, cfg.aligns[k]);
      hide AlignedOffset, ValidConfig;
      ok := true;
      if parentSize > nodeSize {
        ok := FreeIn(k, Address(addr.chunk, addr.offset + nodeSize), parentSize - nodeSize, addr);
      } else {
        AllGrownSame(views);
        assert Extended(lives[k], addr, Padded(cfg, k, t)) == lives[k];
      }
    }

    method Place(t: nat, bufferId: nat) returns (ok: bool)
      requires Valid() && t < |hash| && bufferId < |cfg.bufs| && Managed(cfg.g, t) && t !in ever && !hash[t].owned
      modifies this, Repr
      ensures ok ==> Valid() && PlacedIn(cfg, old(Now()), Now(), t, bufferId)
      ensures ok ==> fresh(Repr - old(Repr)) && old(Repr) <= Repr
      ensures !ok ==> Limited()
    {
      hide WellFormed, MemInv, AllGrown, LiveDisjoint, LiveRange, GraphAllocr.Heap, AlignedOffset, PlacedIn;
      ghost var st, vs := Now(), views;
      var k := cfg.bufs[bufferId];
      var addr;
      ok, addr := AllocIn(k, cfg.sizes[k][t]);
      if ok {
        hash := hash[t := hash[t].(owned := true, bufferId := bufferId, addr := addr)];
        ever := ever + {t};
        hide Fits;
        PlaceKeeps(cfg, st, Now(), vs, views, t, bufferId, addr);
      }
    }

    // Makes sure that tensor t has memory if it needs its own. False: the source aborts.
    method AllocateNode(t: nat, bufferId: nat) returns (ok: bool)
      requires Valid() && t < |hash| && bufferId < |cfg.bufs|
      requires Managed(cfg.g, t) ==> NotDead(cfg, Now(), t)
      requires Managed(cfg.g, t) && CanInplace(cfg.g.tensors[t].op) ==> t !in cfg.g.tensors[t].src
      modifies this, Repr
      ensures ok ==> Valid() && Allocation(cfg, old(Now()), Now(), t, bufferId)
      ensures ok ==> fresh(Repr - old(Repr)) && old(Repr) <= Repr
      ensures !ok ==> Limited() || Outgrown(cfg, old(Now()), t)
    {
      hide GraphAllocr.Heap, ValidConfig, MemInv, PlacedIn, TakenOver, Reusable, Allocation;
      ghost var st := Now();
      ok := true;
      if !cfg.g.tensors[t].external && !hash[t].owned && !IsView(cfg.g, t) {
        var j := -1;
        if CanInplace(cfg.g.tensors[t].op) {
          j := FindParent(t);
        } else {
          NoneReusable(cfg, st, t);
        }
        hide Fits;
        if j != -1 {
          ok := TakeOver(t, cfg.g.tensors[t].src[j]);
          if ok { AllocationTaken(cfg, st, Now(), t, bufferId, j); }
        } else {
          ok := Place(t, bufferId);
          if ok { AllocationCases(cfg, st, Now(), t, bufferId); }
        }
      } else {
        AllocationCases(cfg, st, st, t, bufferId);
      }
    }

    // ---- giving memory back ----

    method FreeNode(t: nat) returns (ok: bool)
      requires Valid() && t < |hash| && hash[t].owned
      modifies this`hash, this`lives, this`views, Repr
      ensures ok ==> Valid() && Now() == PlanUpdates.FreeNode(cfg, old(Now()), t)
      ensures !ok ==> Limited()
    {
      hide GraphAllocr.Heap, WellFormed, Fits, AllGrown, AlignedOffset;
      ghost var st, vs := Now(), views;
      if cfg.g.tensors[t].output {
        return true;
      }
      var k := cfg.bufs[hash[t].bufferId];
      OwnedRange(cfg, st, t);
      var addr := hash[t].addr;
      ok := FreeIn(k, addr, cfg.sizes[k][t], addr);
      if ok {
        hash := hash[t := hash[t].(owned := false)];
        ReleasedKeeps(cfg, st, t);
        hide MemInv;
        FitsAfter(cfg, st, Now(), vs, views);
      }
    }

    // One read of source v is done.
    method UpdateParent(v: nat) returns (ok: bool)
      requires Valid() && v < |hash|
      modifies this`hash, this`lives, this`views, Repr
      ensures ok ==> Valid() && Now() == Updated(cfg, old(Now()), v)
      ensures !ok ==> Limited()
    {
      hide GraphAllocr.Heap, Fits;
      ghost var st := Now();
      var r := Root(cfg.g, v);
      assert r < |hash| && InRange(cfg.g);
      hide WellFormed, InRange;
      RecountedValid(cfg, st, views, v);
      hide MemInv;
      ok := true;
      hash := hash[v := hash[v].(nChildren := hash[v].nChildren - 1)];
      var idle := hash[v].nChildren == 0 && hash[v].nViews == 0;
      if idle && IsView(cfg.g, v) {
        hash := hash[r := hash[r].(nViews := hash[r].nViews - 1)];
      }
      assert hash == Recounted(cfg.g, st.hash, v);
      hide Recounted, ValidConfig;
      if idle && hash[r].nViews == 0 && hash[r].nChildren == 0 && hash[r].owned {
        ok := FreeNode(r);
      }
    }

    // ---- planning a graph ----

    ghost predicate ValidIds(ids: Option<seq<nat>>, n: nat) {
      && 0 < |cfg.bufs|
      && (ids.Some? ==> |ids.value| >= n && forall i :: 0 <= i < n ==> ids.value[i] < |cfg.bufs|)
    }

    function BufferId(ids: Option<seq<nat>>, i: nat): (b: nat)
      requires ids.Some? ==> i < |ids.value|
      ensures Given(ids, i, b)
    {
      if ids.Some? then ids.value[i] else 0
    }

    // while leafs and inputs get memory: children counted up to source j of node m, views up to w
    ghost predicate Loading(ids: Ids, m: nat, j: nat, w: nat)
      reads this, Repr
    {
      Valid() && |hash| == |cfg.g.tensors| && Loaded(cfg, Now()) && Counted(cfg, Now(), m, j, w) &&
      InPlace(cfg, Now(), ids)
    }

    lemma LoadingFacts(ids: Ids, m: nat, j: nat, w: nat)
      requires Loading(ids, m, j, w)
      ensures WellFormed(cfg.g) && InRange(cfg.g) && Shape(cfg, Now()) && this !in Repr
    {
    }

    method LoadLeafs(leafIds: Option<seq<nat>>, ghost ids: Ids) returns (ok: bool)
      requires InRange(cfg.g) && Loading(ids, 0, 0, 0) && ValidIds(leafIds, |cfg.g.leafs|) && ids.leafs == leafIds
      modifies this, Repr
      ensures ok ==> Loading(ids, 0, 0, 0) && LeafsIn(cfg.g, ever, |cfg.g.leafs|)
      ensures ok ==> fresh(Repr - old(Repr)) && old(Repr) <= Repr
      ensures !ok ==> Limited()
    {
      hide GraphAllocr.Loading, WellFormed, ValidConfig, Shape;
      LoadingFacts(ids, 0, 0, 0);
      GraphFacts(cfg.g);
      hide InRange, Given;
      ok := true;
      for i := 0 to |cfg.g.leafs|
        invariant Loading(ids, 0, 0, 0) && |hash| == |cfg.g.tensors|
        invariant LeafsIn(cfg.g, ever, i) && fresh(Repr - old(Repr)) && old(Repr) <= Repr
      {
        assert LeafDue(cfg.g, ever, i, cfg.g.leafs[i]);
        ok := LoadTensor(ids, cfg.g.leafs[i], BufferId(leafIds, i), 0, 0, 0);
        if !ok { return; }
      }
    }

    // Memory for a leaf or an input while children and views are being counted.
    method LoadTensor(ghost ids: Ids, t: nat, bufferId: nat, ghost m: nat, ghost j: nat, ghost w: nat)
      returns (ok: bool)
      requires Loading(ids, m, j, w)
      requires t < |hash| && |hash| == |cfg.g.tensors| && bufferId < |cfg.bufs| && cfg.g.tensors[t].op.NoOp?
      requires InRange(cfg.g) && Due(cfg, ever, ids, t, bufferId)
      modifies this, Repr
      ensures ok ==> Loading(ids, m, j, w) && |hash| == |cfg.g.tensors|
      ensures ok ==> old(ever) <= ever && (Managed(cfg.g, t) ==> t in ever)
      ensures ok ==> fresh(Repr - old(Repr)) && old(Repr) <= Repr
      ensures !ok ==> Limited()
    {
      hide GraphAllocr.Heap, WellFormed, MemInv, Fits, Counted, Allocation, InPlace, Due;
      ghost var st := Now();
      LoadedAlive(cfg, st, t);
      hide Loaded;
      ok := AllocateNode(t, bufferId);
      if ok {
        DueInPlace(cfg, st, Now(), ids, t, bufferId);
        LoadOne(cfg, st, Now(), t, bufferId);
        CountsCarried(cfg, st, Now(), m, j, w);
      }
    }

    // The view that node m is, if it is one.
    method CountView(ghost ids: Ids, m: nat)
      requires Loading(ids, m, 0, m) && m < |cfg.g.nodes|
      modifies this`hash
      ensures Loading(ids, m, 0, m + 1) && |hash| == |cfg.g.tensors|
    {
      hide GraphAllocr.Heap, MemInv, Fits, Counted, Loaded, InPlace;
      LoadingFacts(ids, m, 0, m);
      GraphFacts(cfg.g);
      hide WellFormed, InRange, ValidConfig;
      var node := cfg.g.nodes[m];
      ghost var st := Now();
      LoadedCounting(cfg, st, views, ViewCounted(cfg.g, hash, node));
      ViewCountedStep(cfg, st, m);
      CountingInPlace(cfg, st, ids, ViewCounted(cfg.g, hash, node));
      if IsView(cfg.g, node) && !cfg.g.tensors[node].op.NoOp? {
        var r := Root(cfg.g, node);
        hash := hash[r := hash[r].(nViews := hash[r].nViews + 1)];
      }
      assert hash == ViewCounted(cfg.g, st.hash, node);
    }

    method CountChild(ghost ids: Ids, m: nat, j: nat, s: nat)
      requires InRange(cfg.g) && m < |cfg.g.nodes| && j < |Src(cfg.g, m)| && s == Src(cfg.g, m)[j]
      requires Loading(ids, m, j, m + 1)
      modifies this`hash
      ensures Loading(ids, m, j + 1, m + 1) && |hash| == |cfg.g.tensors|
    {
      hide GraphAllocr.Heap, MemInv, Fits, Counted, Loaded, InPlace;
      LoadingFacts(ids, m, j, m + 1);
      GraphFacts(cfg.g);
      hide WellFormed, InRange, ValidConfig;
      LoadedCounting(cfg, Now(), views, ChildCounted(hash, s));
      ChildCountedStep(cfg, Now(), m, j);
      CountingInPlace(cfg, Now(), ids, ChildCounted(hash, s));
      hash := hash[s := hash[s].(nChildren := hash[s].nChildren + 1)];
    }

    // Counts the view and the children of node m, and gives memory to the inputs it meets.
    method CountNode(ghost ids: Ids, m: nat, bufferId: nat) returns (ok: bool)
      requires InRange(cfg.g) && Loading(ids, m, 0, m)
      requires m < |cfg.g.nodes| && bufferId < |cfg.bufs| && Given(ids.nodes, m, bufferId)
      requires LeafsIn(cfg.g, ever, |cfg.g.leafs|) && InputsIn(cfg.g, ever, m)
      modifies this, Repr
      ensures ok ==> Loading(ids, m + 1, 0, m + 1)
      ensures ok ==> LeafsIn(cfg.g, ever, |cfg.g.leafs|) && InputsIn(cfg.g, ever, m + 1)
      ensures ok ==> old(ever) <= ever && fresh(Repr - old(Repr)) && old(Repr) <= Repr
      ensures !ok ==> Limited()
    {
      hide GraphAllocr.Loading, WellFormed, ValidConfig;
      CountView(ids, m);
      LoadingFacts(ids, m, 0, m + 1);
      GraphFacts(cfg.g);
      hide InRange, Shape;
      var node := cfg.g.nodes[m];
      var src := Src(cfg.g, m);
      ok := true;
      if cfg.g.tensors[node].input {
        assert InputDue(cfg.g, ever, m, node);
        ok := LoadTensor(ids, node, bufferId, m, 0, m + 1);
        if !ok { return; }
      }
      for j := 0 to |src|
        invariant Loading(ids, m, j, m + 1) && |hash| == |cfg.g.tensors|
        invariant old(ever) <= ever && (WantsInput(cfg.g, node) ==> node in ever)
        invariant forall l :: 0 <= l < j && WantsInput(cfg.g, src[l]) ==> src[l] in ever
        invariant fresh(Repr - old(Repr)) && old(Repr) <= Repr
      {
        CountChild(ids, m, j, src[j]);
        if cfg.g.tensors[src[j]].input {
          InputsLater(cfg.g, old(ever), ever, m);
          assert InputDue(cfg.g, ever, m, src[j]);
          ok := LoadTensor(ids, src[j], bufferId, m, j + 1, m + 1);
          if !ok { return; }
        }
      }
      InputsLater(cfg.g, old(ever), ever, m);
      CountNodeDone(ids, m);
    }

    lemma CountNodeDone(ids: Ids, m: nat)
      requires InRange(cfg.g) && m < |cfg.g.nodes| && Loading(ids, m, |Src(cfg.g, m)|, m + 1)
      ensures Loading(ids, m + 1, 0, m + 1)
    {
      hide GraphAllocr.Heap, MemInv, Fits, Loaded, Counted, InPlace;
      LoadingFacts(ids, m, |Src(cfg.g, m)|, m + 1);
      hide WellFormed, InRange, Shape, ValidConfig;
      CountedNext(cfg, Now(), m);
    }

    ghost predicate Planning(ids: Ids, i: nat)
      reads this, Repr
    {
      Valid() && Ready(cfg, Now(), i) && GivenBack(cfg, Now(), i, 0) && InPlace(cfg, Now(), ids)
    }

    ghost predicate Processing(ids: Ids, i: nat, j: nat)
      reads this, Repr
    {
      Valid() && Updating(cfg, Now(), i, j) && GivenBack(cfg, Now(), i, j) && InPlace(cfg, Now(), ids)
    }

    // Only sources that are no nodes can still need memory here.
    method AllocateSource(ghost ids: Ids, i: nat, s: nat, bufferId: nat) returns (ok: bool)
      requires InRange(cfg.g) && Planning(ids, i) && i < |cfg.g.nodes| && s in Src(cfg.g, i)
      requires bufferId < |cfg.bufs| && Given(ids.nodes, i, bufferId)
      modifies this, Repr
      ensures ok ==> Planning(ids, i) && old(ever) <= ever && (Managed(cfg.g, s) ==> s in ever)
      ensures ok ==> fresh(Repr - old(Repr)) && old(Repr) <= Repr
      ensures !ok ==> Limited()
    {
      hide GraphAllocr.Heap, WellFormed, InRange, MemInv, Fits, Allocation, Ready, GivenBack, InPlace, Given;
      ghost var st := Now();
      SourceAlive(cfg, st, i, s);
      hide Shape;
      ok := AllocateNode(s, bufferId);
      if ok {
        SourceAllocated(cfg, st, Now(), i, s, bufferId);
        SourceGivenBack(cfg, st, Now(), i, s, bufferId);
        SourceInPlace(cfg, st, Now(), ids, i, s, bufferId);
      }
    }

    method AllocateNodeInTurn(ghost ids: Ids, i: nat, bufferId: nat) returns (ok: bool)
      requires Planning(ids, i) && i < |cfg.g.nodes| && bufferId < |cfg.bufs| && Given(ids.nodes, i, bufferId)
      requires Shape(cfg, Now()) && SourcesHeld(cfg, Now(), i)
      modifies this, Repr
      ensures ok ==> Processing(ids, i, 0) && fresh(Repr - old(Repr)) && old(Repr) <= Repr
      ensures !ok ==> Aborted()
    {
      hide GraphAllocr.Heap, MemInv, Fits, Allocation, Ready, SourcesHeld, Updating, GivenBack, InPlace, Given;
      ghost var st := Now();
      NodeAlive(cfg, st, i);
      ReadyFacts(cfg, st, i);
      GraphFacts(cfg.g);
      hide WellFormed, InRange, ValidConfig;
      ok := AllocateNode(cfg.g.nodes[i], bufferId);
      if ok {
        NodeGivenBack(cfg, st, Now(), i, bufferId);
        NodeInPlace(cfg, st, Now(), ids, i, bufferId);
        NodeAllocated(cfg, st, Now(), i, bufferId);
      } else if Outgrown(cfg, st, cfg.g.nodes[i]) {
        OutgrownNode(cfg, st, i);
      }
    }

    method UpdateSource(ghost ids: Ids, i: nat, j: nat) returns (ok: bool)
      requires InRange(cfg.g) && Processing(ids, i, j) && i < |cfg.g.nodes| && j < |Src(cfg.g, i)|
      modifies this`hash, this`lives, this`views, Repr
      ensures ok ==> Processing(ids, i, j + 1)
      ensures !ok ==> Limited()
    {
      hide GraphAllocr.Heap, WellFormed, MemInv, Fits, Updating, Updated, GivenBack, InPlace;
      ghost var st := Now();
      UpdatingFacts(cfg, st, i, j);
      ok := UpdateParent(Src(cfg.g, i)[j]);
      if ok {
        UpdatedKeeps(cfg, st, i, j);
        UpdatedGivenBack(cfg, st, i, j);
        UpdatedInPlace(cfg, st, ids, i, j);
      }
    }

    // One iteration of the main loop.
    method PlanNode(ghost ids: Ids, i: nat, bufferId: nat) returns (ok: bool)
      requires InRange(cfg.g) && Planning(ids, i) && i < |cfg.g.nodes|
      requires bufferId < |cfg.bufs| && Given(ids.nodes, i, bufferId)
      modifies this, Repr
      ensures ok ==> Planning(ids, i + 1) && fresh(Repr - old(Repr)) && old(Repr) <= Repr
      ensures !ok ==> Aborted()
    {
      hide GraphAllocr.Planning, GraphAllocr.Processing, SourcesHeld, Given;
      var src := Src(cfg.g, i);
      ok := true;
      for j := 0 to |src|
        invariant Planning(ids, i) && fresh(Repr - old(Repr)) && old(Repr) <= Repr
        invariant forall l :: 0 <= l < j && Managed(cfg.g, src[l]) ==> src[l] in ever
      {
        ok := AllocateSource(ids, i, src[j], bufferId);
        if !ok { return; }
      }
      SourcesPlanned(ids, i);
      ok := AllocateNodeInTurn(ids, i, bufferId);
      if !ok { return; }
      var j := 0;
      while j < |src|
        invariant j <= |src| && Processing(ids, i, j) && fresh(Repr - old(Repr)) && old(Repr) <= Repr
      {
        PartsApart(ids, i, j);
        ok := UpdateSource(ids, i, j);
        if !ok { return; }
        j := j + 1;
      }
      ProcessingDone(ids, i);
    }

    lemma SourcesPlanned(ids: Ids, i: nat)
      requires InRange(cfg.g) && Planning(ids, i) && i < |cfg.g.nodes|
      requires forall l :: 0 <= l < |Src(cfg.g, i)| && Managed(cfg.g, Src(cfg.g, i)[l]) ==> Src(cfg.g, i)[l] in ever
      ensures Shape(cfg, Now()) && SourcesHeld(cfg, Now(), i)
    {
      hide GraphAllocr.Heap, MemInv, Fits, Ready, GivenBack, InPlace;
      ReadyFacts(cfg, Now(), i);
      SourcesHeldBy(cfg, Now(), i);
    }

    lemma PartsApart(ids: Ids, i: nat, j: nat)
      requires Processing(ids, i, j)
      ensures this !in Repr
    {
      hide GraphAllocr.Heap, MemInv, Fits, Updating, InPlace;
    }

    lemma ProcessingDone(ids: Ids, i: nat)
      requires InRange(cfg.g) && i < |cfg.g.nodes| && Processing(ids, i, |Src(cfg.g, i)|)
      ensures Planning(ids, i + 1)
    {
      hide GraphAllocr.Heap, WellFormed, InRange, Fits, Ready, Updating, InPlace;
      NextReady(cfg, Now(), i);
      NextGivenBack(cfg, Now(), i);
    }

    // ---- the whole plan ----

    // Plans the graph. False: the source aborts (no room, or a free list is full).
    method AllocGraph(nodeIds: Option<seq<nat>>, leafIds: Option<seq<nat>>) returns (ok: bool)
      requires Fresh() && ValidIds(nodeIds, |cfg.g.nodes|) && ValidIds(leafIds, |cfg.g.leafs|)
      modifies this, Repr
      ensures ok ==> Valid() && Ready(cfg, Now(), |cfg.g.nodes|) && GivenBack(cfg, Now(), |cfg.g.nodes|, 0)
      // every tensor is in the buffer given for it, or where it takes over a source
      ensures ok ==> InPlace(cfg, Now(), Ids(nodeIds, leafIds))
      ensures ok ==> fresh(Repr - old(Repr)) && old(Repr) <= Repr
      ensures !ok ==> Aborted()
    {
      hide GraphAllocr.Loading, GraphAllocr.Planning, GraphAllocr.Heap, GraphAllocr.Valid, WellFormed, InRange,
           ValidConfig, GivenBack, InPlace, Given;
      ghost var ids := Ids(nodeIds, leafIds);
      Clear(ids);
      ok := LoadLeafs(leafIds, ids);
      if !ok { return; }
      for m := 0 to |cfg.g.nodes|
        invariant Loading(ids, m, 0, m) && LeafsIn(cfg.g, ever, |cfg.g.leafs|) && InputsIn(cfg.g, ever, m)
        invariant fresh(Repr - old(Repr)) && old(Repr) <= Repr
      {
        ok := CountNode(ids, m, BufferId(nodeIds, m));
        if !ok { return; }
      }
      LoadingEnds(ids);
      for i := 0 to |cfg.g.nodes|
        invariant Planning(ids, i) && fresh(Repr - old(Repr)) && old(Repr) <= Repr
      {
        ok := PlanNode(ids, i, BufferId(nodeIds, i));
        if !ok { return; }
      }
      PlanningEnds(ids, |cfg.g.nodes|);
      ok := true;
    }

    method Clear(ghost ids: Ids)
      requires Fresh() && 0 < |cfg.bufs|
      modifies this`hash, this`ever
      ensures Loading(ids, 0, 0, 0) && InRange(cfg.g)
    {
      hide GraphAllocr.Heap, ValidConfig, MemInv, Fits, Loaded, Counted, GivenBack;
      hash := seq(|cfg.g.tensors|, _ => HashNode(0, 0, 0, Address(0, 0), false));
      ever := {};
      StartState(cfg, Now(), views);
    }

    lemma LoadingEnds(ids: Ids)
      requires InRange(cfg.g) && Loading(ids, |cfg.g.nodes|, 0, |cfg.g.nodes|)
      requires LeafsIn(cfg.g, ever, |cfg.g.leafs|) && InputsIn(cfg.g, ever, |cfg.g.nodes|)
      ensures Planning(ids, 0)
    {
      hide GraphAllocr.Heap, WellFormed, InRange, MemInv, Fits, Loaded, Counted, Ready, LeafsIn, InputsIn, InPlace;
      LoadingDone(cfg, Now());
      ReadyGivenBack();
    }

    lemma ReadyGivenBack()
      requires Ready(cfg, Now(), 0)
      ensures GivenBack(cfg, Now(), 0, 0)
    {
      LoadingGivenBack(cfg, Now());
    }

    lemma PlanningEnds(ids: Ids, i: nat)
      requires Planning(ids, i)
      ensures Valid() && Ready(cfg, Now(), i) && GivenBack(cfg, Now(), i, 0) && InPlace(cfg, Now(), ids)
    {
    }

    // Resets the allocators and plans the graph.
    method Reserve(nodeIds: Option<seq<nat>>, leafIds: Option<seq<nat>>) returns (ok: bool)
      requires ValidConfig(cfg) && Heap() && this !in Repr
      requires ValidIds(nodeIds, |cfg.g.nodes|) && ValidIds(leafIds, |cfg.g.leafs|)
      modifies this, Repr
      ensures ok ==> Valid() && Ready(cfg, Now(), |cfg.g.nodes|) && GivenBack(cfg, Now(), |cfg.g.nodes|, 0)
      ensures ok ==> InPlace(cfg, Now(), Ids(nodeIds, leafIds))
      ensures !ok ==> Aborted()
    {
      ResetAll();
      ok := AllocGraph(nodeIds, leafIds);
    }

    method ResetAll()
      requires ValidConfig(cfg) && Heap() && this !in Repr
      modifies this`lives, this`views, Repr
      ensures Fresh()
    {
      hide ValidConfig, Partition, DynTallocr.Shape, DynTallocr.View;
      for k := 0 to |tallocs|
        invariant Heap() && |lives| == |old(lives)|
        invariant forall l :: 0 <= l < k ==> lives[l] == map[]
      {
        ResetOne(k);
      }
    }

    method ResetOne(k: nat)
      requires Heap() && k < |tallocs|
      modifies this`lives, this`views, tallocs[k]
      ensures Heap() && lives == old(lives)[k := map[]]
    {
      hide ValidConfig, Partition, DynTallocr.Shape, DynTallocr.View;
      tallocs[k].Reset();
      lives := lives[k := map[]];
      views := views[k := []];
    }
  }
}
