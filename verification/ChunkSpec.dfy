// What the allocator's operations mean: views of the chunks, the block that an allocation picks,
// and the partition of every chunk into free blocks and live ranges.
module ChunkSpec {
  import opened FreeList
  import Arith

  const MAX_FREE_BLOCKS := 256
  const MAX_CHUNKS := 16
  const HALF_SIZE_MAX := 0x7FFF_FFFF_FFFF_FFFF

  // The least multiple of the alignment that is at least offset (with a null buffer).
  function AlignedOffset(offset: nat, alignment: nat): (r: nat)
    requires alignment > 0
    ensures r >= offset && r % alignment == 0 && r - offset < alignment
  {
    var align := (alignment - offset % alignment) % alignment;
    PadToMultiple(offset, alignment);
    offset + align
  }

  lemma PadToMultiple(offset: nat, a: nat)
    requires a > 0
    ensures (offset + (a - offset % a) % a) % a == 0
  {
    var q, m := offset / a, offset % a;
    assert offset == a * q + m;
    if m == 0 {
      Arith.DivModUnique(a, a, 1, 0);
      Arith.MultipleMod(q, a);
    } else {
      Arith.DivModUnique(a - m, a, 0, a - m);
      assert offset + (a - m) == a * (q + 1);
      Arith.MultipleMod(q + 1, a);
    }
  }

  // no multiple of the alignment lies between a size and its padded form
  lemma AlignedLeast(offset: nat, a: nat, m: nat)
    requires a > 0 && m % a == 0 && offset <= m
    ensures AlignedOffset(offset, a) <= m
  {
    var r := AlignedOffset(offset, a);
    Arith.MultipleSum(r, m, a);
    assert r - m == a * ((r - m) / a);
    Arith.MultipleSize(a, (r - m) / a);
  }

  // What is visible of one chunk: free list, size of the chunk, high-water mark.
  datatype ChunkView = ChunkView(free: seq<Block>, total: nat, maxSize: nat)

  ghost predicate ValidChunk(v: ChunkView, alignment: nat)
    requires alignment > 0
  {
    && |v.free| <= MAX_FREE_BLOCKS
    && Canonical(v.free)
    && WithinChunk(v.free, v.total, alignment)
    && v.maxSize <= v.total <= HALF_SIZE_MAX
    // everything above the high-water mark is free
    && (forall x :: v.maxSize <= x < v.total ==> FreeAt(v.free, x))
  }

  function Max(a: int, b: int): int { if a > b then a else b }

  datatype Address = Address(chunk: nat, offset: nat)

  type View = seq<ChunkView>

  const SIZE_MAX := 0xFFFF_FFFF_FFFF_FFFF

  // block b of chunk c is not the last of its chunk and is large enough
  ghost predicate InnerFit(v: View, size: nat, c: int, b: int) {
    0 <= c < |v| && 0 <= b < |v[c].free| - 1 && v[c].free[b].size >= size
  }

  // block (c', b') is at most as good as block (c, b): a later chunk wins over everything before
  // it, then the smaller block wins, then the later one
  ghost predicate NoBetter(v: View, c': int, b': int, c: int, b: int)
    requires 0 <= c < |v| && 0 <= b < |v[c].free| && 0 <= c' < |v| && 0 <= b' < |v[c'].free|
  {
    c' < c || (c' == c && (v[c].free[b].size < v[c].free[b'].size
                           || (v[c].free[b].size == v[c].free[b'].size && b' <= b)))
  }

  ghost predicate BestInner(v: View, size: nat, c: int, b: int) {
    && InnerFit(v, size, c, b)
    && (forall c', b' :: InnerFit(v, size, c', b') ==> NoBetter(v, c', b', c, b))
  }

  ghost predicate TailFit(v: View, size: nat, c: int) {
    0 <= c < |v| && |v[c].free| > 0 && v[c].free[|v[c].free| - 1].size >= size
  }

  // how many bytes below the high-water mark stay unused (negative: how far the chunk grows)
  ghost function Reuse(v: View, size: nat, c: int): int
    requires 0 <= c < |v| && |v[c].free| > 0
  {
    v[c].maxSize - v[c].free[|v[c].free| - 1].offset - size
  }

  // less growth first, then less waste
  predicate Better(r: int, s: int) { (s < 0 && r > s) || (r >= 0 && r < s) }

  ghost predicate BestTail(v: View, size: nat, c: int) {
    && TailFit(v, size, c)
    && (forall c' :: TailFit(v, size, c') ==>
          !Better(Reuse(v, size, c'), Reuse(v, size, c)) &&
          (c' < c ==> Reuse(v, size, c') != Reuse(v, size, c)))
  }

  // how far the chunk grows when the last block serves, and how much stays unused below the mark
  ghost function Growth(v: View, size: nat, c: int): int
    requires 0 <= c < |v| && |v[c].free| > 0
  {
    Max(0, v[c].free[|v[c].free| - 1].offset + size - v[c].maxSize)
  }

  ghost function Waste(v: View, size: nat, c: int): int
    requires 0 <= c < |v| && |v[c].free| > 0
  {
    Max(0, v[c].maxSize - (v[c].free[|v[c].free| - 1].offset + size))
  }

  // The best last block lets its chunk grow least, and of those wastes least, and of those comes first.
  lemma BestTailExactlyWhen(v: View, size: nat, c: int)
    requires TailFit(v, size, c)
    ensures BestTail(v, size, c) <==> forall d :: TailFit(v, size, d) ==>
              var g, h, w, u := Growth(v, size, c), Growth(v, size, d), Waste(v, size, c), Waste(v, size, d);
              g < h || (g == h && (w < u || (w == u && c <= d)))
  {
  }

  // the range touches no free block, and there is no place for one more
  ghost predicate ListFull(v: View, a: Address, size: nat) {
    && 0 <= a.chunk < |v| && |v[a.chunk].free| == MAX_FREE_BLOCKS
    && forall k :: 0 <= k < |v[a.chunk].free| ==>
         End(v[a.chunk].free[k]) != a.offset && a.offset + size != v[a.chunk].free[k].offset
  }

  // one of the two fixed limits is reached
  ghost predicate AtLimit(v: View) {
    |v| >= MAX_CHUNKS || exists c :: 0 <= c < |v| && |v[c].free| == MAX_FREE_BLOCKS
  }

  ghost predicate NoInnerFit(v: View, size: nat) { forall c, b :: !InnerFit(v, size, c, b) }

  ghost predicate NoTailFit(v: View, size: nat) { forall c :: !TailFit(v, size, c) }

  // the place the allocator picks for size bytes; chunk |v| stands for a new chunk
  ghost predicate Chosen(v: View, size: nat, a: Address) {
    if NoInnerFit(v, size) then
      if NoTailFit(v, size) then a == Address(|v|, 0)
      else BestTail(v, size, a.chunk) && a.offset == v[a.chunk].free[|v[a.chunk].free| - 1].offset
    else
      exists b :: BestInner(v, size, a.chunk, b) && a.offset == v[a.chunk].free[b].offset
  }

  function FreshTotal(n: nat, size: nat, maxChunkSize: nat): nat {
    if n == MAX_CHUNKS - 1 then HALF_SIZE_MAX else Max(size, maxChunkSize)
  }

  // the view with a new chunk appended if the address names one
  function WithChunk(v: View, a: Address, size: nat, maxChunkSize: nat): View {
    if a.chunk == |v| then
      var t := FreshTotal(|v|, size, maxChunkSize);
      v + [ChunkView([Block(0, t)], t, 0)]
    else v
  }

  // the allocation of size bytes at address a leads from view v to view w
  ghost predicate Allocated(v: View, w: View, a: Address, size: nat) {
    && a.chunk < |v| && |w| == |v|
    && (forall k :: 0 <= k < |v| && k != a.chunk ==> w[k] == v[k])
    && w[a.chunk].total == v[a.chunk].total
    && w[a.chunk].maxSize == Max(v[a.chunk].maxSize, a.offset + size)
    && Removed(v[a.chunk].free, w[a.chunk].free, a.offset, size)
  }

  // returning the range at address a leads from view v to view w
  ghost predicate Freed(v: View, w: View, a: Address, size: nat) {
    && a.chunk < |v| && |w| == |v|
    && (forall k :: 0 <= k < |v| && k != a.chunk ==> w[k] == v[k])
    && w[a.chunk].total == v[a.chunk].total
    && w[a.chunk].maxSize == v[a.chunk].maxSize
    && Added(v[a.chunk].free, w[a.chunk].free, a.offset, size)
  }

  lemma FreshChunkValid(size: nat, alignment: nat)
    requires alignment > 0 && 0 < size <= HALF_SIZE_MAX
    ensures ValidChunk(ChunkView([Block(0, size)], size, 0), alignment)
  {
    var v := ChunkView([Block(0, size)], size, 0);
    Arith.DivModUnique(0, alignment, 0, 0);
    forall x | 0 <= x < size ensures FreeAt(v.free, x) {
      assert Inside(v.free[0], x);
    }
  }

  // chunks are only added, and high-water marks only rise
  ghost predicate Grown(v: View, w: View) {
    |v| <= |w| && forall c :: 0 <= c < |v| ==> v[c].maxSize <= w[c].maxSize
  }

  // address -> padded size of the ranges handed out and not yet returned
  type Live = map<Address, nat>

  function Extended(live: Live, a: Address, n: nat): Live { live[a := n] }

  predicate Covers(live: Live, a: Address, c: int, x: int) {
    a in live && a.chunk == c && a.offset <= x < a.offset + live[a]
  }

  ghost predicate LiveRange(v: View, a: Address, n: nat, alignment: nat)
    requires alignment > 0
  {
    && a.chunk < |v| && n > 0
    && a.offset % alignment == 0 && n % alignment == 0
    && a.offset + n <= v[a.chunk].maxSize
    && InUse(v[a.chunk].free, a.offset, n)
  }

  ghost predicate LiveDisjoint(live: Live) {
    forall a, b, c, x :: Covers(live, a, c, x) && Covers(live, b, c, x) ==> a == b
  }

  ghost predicate NoLeak(v: View, live: Live) {
    forall c, x :: 0 <= c < |v| && 0 <= x < v[c].total && !FreeAt(v[c].free, x) ==>
      exists a :: Covers(live, a, c, x)
  }

  ghost predicate AllValid(v: View, alignment: nat)
    requires alignment > 0
  {
    forall c :: 0 <= c < |v| ==> ValidChunk(v[c], alignment)
  }

  // Free blocks and live ranges partition every chunk; live ranges are aligned and end at or below
  // the high-water mark.
  ghost predicate Partition(v: View, live: Live, alignment: nat)
    requires alignment > 0
  {
    && AllValid(v, alignment)
    && (forall a :: a in live ==> LiveRange(v, a, live[a], alignment))
    && LiveDisjoint(live)
    && NoLeak(v, live)
  }

  lemma PartitionAt(v: View, live: Live, a: Address, alignment: nat)
    requires alignment > 0 && Partition(v, live, alignment) && a in live
    ensures LiveRange(v, a, live[a], alignment) && LiveDisjoint(live)
  {
  }

  lemma WithChunkKeeps(v: View, live: Live, a: Address, size: nat, maxChunkSize: nat, alignment: nat)
    requires alignment > 0 && Partition(v, live, alignment)
    requires 0 < size <= HALF_SIZE_MAX && maxChunkSize <= HALF_SIZE_MAX
    ensures Partition(WithChunk(v, a, size, maxChunkSize), live, alignment)
  {
    if a.chunk == |v| {
      var w := WithChunk(v, a, size, maxChunkSize);
      var t := FreshTotal(|v|, size, maxChunkSize);
      FreshChunkValid(t, alignment);
      forall c, x | 0 <= c < |w| && 0 <= x < w[c].total && !FreeAt(w[c].free, x)
        ensures exists b :: Covers(live, b, c, x)
      {
        assert c < |v|;
        assert w[c] == v[c];
      }
    }
  }

  // An allocation adds its range to the live ones.
  lemma AllocatedKeeps(v: View, w: View, live: Live, a: Address, n: nat, alignment: nat)
    requires alignment > 0 && Partition(v, live, alignment) && Allocated(v, w, a, n)
    requires n > 0 && a.offset % alignment == 0 && n % alignment == 0
    requires AllValid(w, alignment)
    ensures a !in live && Partition(w, live[a := n], alignment)
  {
    assert FreeAt(v[a.chunk].free, a.offset);
    AllocatedDisjoint(v, w, live, a, n, alignment);
    AllocatedNoLeak(v, w, live, a, n);
    forall b | b in live ensures LiveRange(w, b, live[b], alignment) {
      assert LiveRange(v, b, live[b], alignment);
    }
  }

  lemma AllocatedDisjoint(v: View, w: View, live: Live, a: Address, n: nat, alignment: nat)
    requires alignment > 0 && Partition(v, live, alignment) && Allocated(v, w, a, n) && a !in live
    ensures LiveDisjoint(live[a := n])
  {
    var after := live[a := n];
    forall b, d, c, x | Covers(after, b, c, x) && Covers(after, d, c, x)
      ensures b == d
    {
      CoversAfter(v, w, live, a, n, alignment, b, c, x);
      CoversAfter(v, w, live, a, n, alignment, d, c, x);
    }
  }

  lemma CoversAfter(v: View, w: View, live: Live, a: Address, n: nat, alignment: nat, b: Address, c: int, x: int)
    requires alignment > 0 && Partition(v, live, alignment) && Allocated(v, w, a, n) && a !in live
    requires Covers(live[a := n], b, c, x)
    ensures 0 <= c < |v| && (b == a <==> FreeAt(v[c].free, x)) && (b != a ==> Covers(live, b, c, x))
  {
    if b != a { assert LiveRange(v, b, live[b], alignment); }
  }

  lemma AllocatedNoLeak(v: View, w: View, live: Live, a: Address, n: nat)
    requires NoLeak(v, live) && Allocated(v, w, a, n) && a !in live
    ensures NoLeak(w, live[a := n])
  {
    var after := live[a := n];
    forall c, x | 0 <= c < |w| && 0 <= x < w[c].total && !FreeAt(w[c].free, x)
      ensures exists b :: Covers(after, b, c, x)
    {
      if c == a.chunk && a.offset <= x < a.offset + n {
        assert Covers(after, a, c, x);
      } else {
        var b :| Covers(live, b, c, x);
        assert Covers(after, b, c, x);
      }
    }
  }

  // the live ranges after the last n bytes of the range at a have been returned
  function Trimmed(live: Live, a: Address, n: nat): Live
    requires a in live && n <= live[a]
  {
    if n == live[a] then live - {a} else live[a := live[a] - n]
  }

  // Returning a live range, or the end of one, takes it out of the live ones.
  lemma FreedKeeps(v: View, w: View, live: Live, a: Address, n: nat, alignment: nat)
    requires alignment > 0 && Partition(v, live, alignment)
    requires a in live && 0 < n <= live[a] && n % alignment == 0
    requires Freed(v, w, Address(a.chunk, a.offset + live[a] - n), n)
    requires AllValid(w, alignment)
    ensures Partition(w, Trimmed(live, a, n), alignment)
  {
    var after := Trimmed(live, a, n);
    Arith.MultipleSum(live[a], n, alignment);
    forall b, c, x
      ensures Covers(after, b, c, x) <==> Covers(live, b, c, x) && !(b == a && x >= a.offset + live[a] - n)
    {
    }
    forall b | b in after ensures LiveRange(w, b, after[b], alignment) {
      FreedLiveRange(v, w, live, a, n, alignment, b);
    }
    forall c, x | 0 <= c < |w| && 0 <= x < w[c].total && !FreeAt(w[c].free, x)
      ensures exists b :: Covers(after, b, c, x)
    {
      var b :| Covers(live, b, c, x);
      assert Covers(after, b, c, x);
    }
  }

  lemma FreedLiveRange(v: View, w: View, live: Live, a: Address, n: nat, alignment: nat, b: Address)
    requires alignment > 0 && Partition(v, live, alignment)
    requires a in live && 0 < n <= live[a] && (live[a] - n) % alignment == 0
    requires Freed(v, w, Address(a.chunk, a.offset + live[a] - n), n)
    requires b in Trimmed(live, a, n)
    ensures LiveRange(w, b, Trimmed(live, a, n)[b], alignment)
  {
    var m := Trimmed(live, a, n)[b];
    assert LiveRange(v, b, live[b], alignment);
    forall x | b.offset <= x < b.offset + m ensures !FreeAt(w[b.chunk].free, x) {
      assert Covers(live, b, b.chunk, x);
      assert !FreeAt(v[b.chunk].free, x);
      assert Covers(live, a, b.chunk, x) ==> a == b;
    }
  }

  // the end of a live range is aligned, inside its chunk and in use
  lemma LiveEnd(v: View, live: Live, a: Address, n: nat, alignment: nat)
    requires alignment > 0 && Partition(v, live, alignment)
    requires a in live && 0 < n <= live[a] && n % alignment == 0
    ensures a.chunk < |v| && (a.offset + live[a] - n) % alignment == 0
    ensures a.offset + live[a] <= v[a.chunk].total
    ensures InUse(v[a.chunk].free, a.offset + live[a] - n, n)
  {
    assert LiveRange(v, a, live[a], alignment);
    Arith.MultipleSum(a.offset, live[a], alignment);
    Arith.MultipleSum(a.offset + live[a], n, alignment);
  }
}
