// The dynamic tensor allocator: chunks with in-place free-block arrays.
module DynTallocr {
  import opened FreeList
  import opened ChunkSpec
  import Arith

  const INT64_MIN := -0x8000_0000_0000_0000

  // Blocks within the chunk stay so when a list changes by one aligned range.
  lemma AddedWithin(bs: seq<Block>, r: seq<Block>, o: nat, n: nat, total: nat, alignment: nat)
    requires alignment > 0 && WithinChunk(bs, total, alignment)
    requires o % alignment == 0 && o + n <= total
    requires forall i :: 0 <= i < |r| ==> r[i].offset == o || exists k :: 0 <= k < |bs| && bs[k].offset == r[i].offset
    requires Added(bs, r, o, n)
    ensures WithinChunk(r, total, alignment)
  {
    forall i | 0 <= i < |r| ensures End(r[i]) <= total {
      var last := End(r[i]) - 1;
      assert Inside(r[i], last);
      assert FreeAt(r, last);
      if FreeAt(bs, last) {
        var k :| 0 <= k < |bs| && Inside(bs[k], last);
      }
    }
  }

  lemma CarveWithin(bs: seq<Block>, k: nat, n: nat, total: nat, alignment: nat)
    requires alignment > 0 && WithinChunk(bs, total, alignment)
    requires k < |bs| && 0 < n <= bs[k].size && n % alignment == 0
    ensures WithinChunk(Carved(bs, k, n), total, alignment)
  {
    Arith.MultipleSum(bs[k].offset, n, alignment);
  }

  // Block i grown by the n bytes that follow it, joined to the next block when they meet.
  function GrownUp(bs: seq<Block>, i: nat, n: nat): seq<Block>
    requires i < |bs|
  {
    if i + 1 < |bs| && End(bs[i]) + n == bs[i + 1].offset then
      Spliced(bs, i, i + 2, Block(bs[i].offset, bs[i].size + n + bs[i + 1].size))
    else
      bs[i := Block(bs[i].offset, bs[i].size + n)]
  }

  // changing block i in place and removing the one behind it
  lemma GrownUpForm(bs: seq<Block>, i: nat, n: nat)
    requires i < |bs|
    ensures GrownUp(bs, i, n) ==
            if i + 1 < |bs| && End(bs[i]) + n == bs[i + 1].offset then
              var b := bs[i := Block(bs[i].offset, bs[i].size + n + bs[i + 1].size)];
              b[..i + 1] + b[i + 2..]
            else bs[i := Block(bs[i].offset, bs[i].size + n)]
  {
  }

  lemma GrownUpAdds(bs: seq<Block>, i: nat, o: nat, n: nat, total: nat, alignment: nat)
    requires alignment > 0 && Canonical(bs) && WithinChunk(bs, total, alignment)
    requires i < |bs| && InUse(bs, o, n) && n > 0 && End(bs[i]) == o
    requires o % alignment == 0 && o + n <= total
    ensures Added(bs, GrownUp(bs, i, n), o, n) && WithinChunk(GrownUp(bs, i, n), total, alignment)
  {
    if i + 1 < |bs| && End(bs[i]) + n == bs[i + 1].offset {
      GrowBoth(bs, i, o, n);
    } else {
      GrowUp(bs, i, o, n);
    }
    AddedWithin(bs, GrownUp(bs, i, n), o, n, total, alignment);
  }

  class TallocrChunk {
    const blocks: array<Block>
    var nBlocks: nat
    var maxSize: nat
    ghost const total: nat

    ghost predicate Shape()
      reads this
    {
      blocks.Length == MAX_FREE_BLOCKS && nBlocks <= MAX_FREE_BLOCKS
    }

    ghost function Free(): (bs: seq<Block>)
      requires Shape()
      reads this, blocks
    {
      blocks[..nBlocks]
    }

    ghost function View(): (v: ChunkView)
      requires Shape()
      reads this, blocks
    {
      ChunkView(Free(), total, maxSize)
    }

    ghost predicate Valid(alignment: nat)
      requires alignment > 0
      reads this, blocks
    {
      Shape() && ValidChunk(View(), alignment)
    }

    // A fresh chunk is one free block.
    constructor (size: nat)
      ensures Shape() && View() == ChunkView([Block(0, size)], size, 0)
      ensures fresh(this) && fresh(blocks)
    {
      blocks := new Block[MAX_FREE_BLOCKS](_ => Block(0, 0));
      nBlocks := 1;
      maxSize := 0;
      total := size;
      new;
      blocks[0] := Block(0, size);
    }

    // Puts a block in its place in address order; false when the array is full (the source aborts).
    method InsertBlock(offset: nat, size: nat) returns (ok: bool, ghost pos: nat)
      requires Shape()
      modifies this`nBlocks, blocks
      ensures Shape()
      ensures ok == (old(nBlocks) < MAX_FREE_BLOCKS)
      ensures !ok ==> Free() == old(Free())
      ensures ok ==> pos <= |old(Free())| && Free() == Spliced(old(Free()), pos, pos, Block(offset, size))
      ensures ok ==> forall k :: 0 <= k < pos ==> old(Free())[k].offset < offset
      ensures ok && pos < |old(Free())| ==> offset <= old(Free())[pos].offset
    {
      pos := 0;
      if nBlocks >= MAX_FREE_BLOCKS {
        return false, 0;
      }
      var insertPos := 0;
      while insertPos < nBlocks && blocks[insertPos].offset < offset
        invariant insertPos <= nBlocks
        invariant forall k :: 0 <= k < insertPos ==> blocks[k].offset < offset
      {
        insertPos := insertPos + 1;
      }
      ghost var was := Free();
      var i := nBlocks;
      while i > insertPos
        invariant nBlocks == |was| && insertPos <= i <= nBlocks
        invariant blocks[..i] == was[..i]
        invariant forall k :: i < k <= nBlocks ==> blocks[k] == was[k - 1]
      {
        blocks[i] := blocks[i - 1];
        i := i - 1;
      }
      blocks[insertPos] := Block(offset, size);
      nBlocks := nBlocks + 1;
      pos := insertPos;
      ok := true;
      assert Free() == Spliced(was, pos, pos, Block(offset, size));
    }

    // Shifts everything after idx one place to the left.
    method RemoveBlock(idx: nat)
      requires Shape() && idx < nBlocks
      modifies this`nBlocks, blocks
      ensures Shape()
      ensures Free() == old(Free())[..idx] + old(Free())[idx + 1..]
    {
      ghost var was := Free();
      var i := idx;
      while i < nBlocks - 1
        invariant nBlocks == |was| && idx <= i <= nBlocks - 1
        invariant blocks[..idx] == was[..idx]
        invariant forall k :: idx <= k < i ==> blocks[k] == was[k + 1]
        invariant forall k :: i < k < nBlocks ==> blocks[k] == was[k]
      {
        blocks[i] := blocks[i + 1];
        i := i + 1;
      }
      nBlocks := nBlocks - 1;
      assert Free() == was[..idx] + was[idx + 1..];
    }

    // Takes the first size bytes of free block k.
    method Take(k: nat, size: nat, ghost alignment: nat)
      requires alignment > 0 && Valid(alignment) && k < nBlocks
      requires 0 < size <= blocks[k].size && size % alignment == 0
      modifies this`nBlocks, this`maxSize, blocks
      ensures Valid(alignment)
      ensures Removed(old(Free()), Free(), old(blocks[k].offset), size)
      ensures maxSize == Max(old(maxSize), old(blocks[k].offset) + size)
    {
      ghost var was := Free();
      var offset := blocks[k].offset;
      blocks[k] := Block(offset + size, blocks[k].size - size);
      if blocks[k].size == 0 {
        RemoveBlock(k);
      }
      maxSize := if maxSize > offset + size then maxSize else offset + size;
      assert Free() == Carved(was, k, size);
      CarveRemoves(was, k, size);
      CarveWithin(was, k, size, total, alignment);
    }

    // The range follows block i: enlarge it, and join it to the next block if they now meet.
    method MergeUp(i: nat, offset: nat, size: nat, ghost alignment: nat)
      requires alignment > 0 && Valid(alignment) && i < nBlocks && size > 0
      requires offset % alignment == 0 && offset + size <= total && InUse(Free(), offset, size)
      requires End(blocks[i]) == offset
      modifies this`nBlocks, blocks
      ensures Valid(alignment) && Added(old(Free()), Free(), offset, size)
    {
      hide Added, InUse, Canonical, WithinChunk, GrownUp;
      ghost var was := Free();
      GrownUpAdds(was, i, offset, size, total, alignment);
      GrownUpForm(was, i, size);
      blocks[i] := Block(blocks[i].offset, blocks[i].size + size);
      if i < nBlocks - 1 && blocks[i].offset + blocks[i].size == blocks[i + 1].offset {
        blocks[i] := Block(blocks[i].offset, blocks[i].size + blocks[i + 1].size);
        assert Free() == was[i := Block(was[i].offset, was[i].size + size + was[i + 1].size)];
        RemoveBlock(i + 1);
      } else {
        assert Free() == was[i := Block(was[i].offset, was[i].size + size)];
      }
    }

    // The range ends where block i begins: extend the block downwards. The source then looks for a
    // previous block to join, but no block ends at the offset, so that branch is dead.
    method MergeDown(i: nat, offset: nat, size: nat, ghost alignment: nat)
      requires alignment > 0 && Valid(alignment) && i < nBlocks && size > 0
      requires offset % alignment == 0 && offset + size <= total && InUse(Free(), offset, size)
      requires offset + size == blocks[i].offset
      requires forall k :: 0 <= k < i ==> End(blocks[k]) != offset
      modifies this`nBlocks, blocks
      ensures Valid(alignment) && Added(old(Free()), Free(), offset, size)
    {
      ghost var was := Free();
      blocks[i] := Block(offset, blocks[i].size + size);
      if i > 0 && blocks[i - 1].offset + blocks[i - 1].size == blocks[i].offset {
        assert false;
      }
      assert Free() == was[i := Block(offset, was[i].size + size)];
      GrowDown(was, i, offset, size);
      AddedWithin(was, Free(), offset, size, total, alignment);
    }

    // Returns a range in use to the free list, joining it to the blocks it touches.
    method FreeBytes(offset: nat, size: nat, ghost alignment: nat) returns (ok: bool)
      requires alignment > 0 && Valid(alignment) && size > 0
      requires offset % alignment == 0 && offset + size <= total && InUse(Free(), offset, size)
      modifies this`nBlocks, blocks
      ensures Shape() && (ok ==> Valid(alignment))
      ensures ok ==> Added(old(Free()), Free(), offset, size)
      // aborts exactly when the array is full and the range touches no free block
      ensures !ok <==> old(nBlocks) == MAX_FREE_BLOCKS &&
                       forall k :: 0 <= k < |old(Free())| ==>
                         End(old(Free())[k]) != offset && offset + size != old(Free())[k].offset
    {
      ghost var was := Free();
      var i := 0;
      while i < nBlocks
        invariant i <= nBlocks && Free() == was
        invariant forall k :: 0 <= k < i ==> End(was[k]) != offset && offset + size != was[k].offset
      {
        if blocks[i].offset + blocks[i].size == offset {
          ok := true;
          MergeUp(i, offset, size, alignment);
          return;
        }
        if offset + size == blocks[i].offset {
          ok := true;
          MergeDown(i, offset, size, alignment);
          return;
        }
        i := i + 1;
      }
      ghost var pos;
      ok, pos := InsertBlock(offset, size);
      if ok {
        InsertAdds(was, pos, offset, size);
        AddedWithin(was, Free(), offset, size, total, alignment);
      }
    }
  }

  class DynTallocr {
    const alignment: nat
    const maxChunkSize: nat
    var chunks: seq<TallocrChunk>
    ghost var Repr: set<object>
    ghost var live: Live  // the ranges handed out

    ghost predicate Shape()
      reads this`chunks, this`Repr, Repr
    {
      && this !in Repr && alignment > 0 && maxChunkSize <= HALF_SIZE_MAX
      && |chunks| <= MAX_CHUNKS
      && (forall i :: 0 <= i < |chunks| ==> chunks[i] in Repr && chunks[i].blocks in Repr)
      && (forall i, j :: 0 <= i < j < |chunks| ==>
            chunks[i] != chunks[j] && chunks[i].blocks != chunks[j].blocks)
      && (forall i :: 0 <= i < |chunks| ==> chunks[i].Shape())
    }

    ghost function View(): (v: View)
      requires Shape()
      reads this`chunks, this`Repr, Repr
      ensures |v| == |chunks| && forall i :: 0 <= i < |v| ==> v[i] == chunks[i].View()
    {
      var cs, r := chunks, Repr;
      seq(|cs|, i requires 0 <= i < |cs| && cs[i] in r && cs[i].blocks in r && cs[i].Shape() reads r =>
        cs[i].View())
    }

    ghost predicate Valid()
      reads this, Repr
      ensures Valid() ==> Shape() && alignment > 0
    {
      Shape() && Partition(View(), live, alignment)
    }

    constructor (alignment: nat, maxBufferSize: nat)
      requires alignment > 0
      ensures Valid() && fresh(Repr) && this !in Repr && View() == [] && live == map[]
      ensures this.alignment == alignment
    {
      this.alignment := alignment;
      this.maxChunkSize := if maxBufferSize < HALF_SIZE_MAX then maxBufferSize else HALF_SIZE_MAX;
      this.chunks := [];
      this.live := map[];
      this.Repr := {};
    }

    // Looks for a block before the last one of its chunk.
    method FindInner(size: nat) returns (bestChunk: int, bestBlock: int)
      requires Valid()
      ensures bestBlock == -1 ==> NoInnerFit(View(), size)
      ensures bestBlock != -1 ==> BestInner(View(), size, bestChunk, bestBlock)
    {
      bestChunk, bestBlock := -1, -1;
      ghost var v := View();
      for c := 0 to |chunks|
        invariant bestBlock == -1 ==> forall c', b' :: InnerFit(v, size, c', b') ==> c' >= c
        invariant bestBlock != -1 ==> InnerFit(v, size, bestChunk, bestBlock) && bestChunk < c
        invariant bestBlock != -1 ==> forall c', b' :: InnerFit(v, size, c', b') && c' < c ==>
                                        NoBetter(v, c', b', bestChunk, bestBlock)
      {
        var bestFitSize := SIZE_MAX;
        var chunk := chunks[c];
        var last := chunk.nBlocks - 1;
        var i := 0;
        assert v[c] == chunk.View();
        while i < last
          invariant 0 <= i && (i <= last || i == 0)
          invariant bestBlock == -1 ==> forall c', b' :: InnerFit(v, size, c', b') ==> c' > c || (c' == c && b' >= i)
          invariant bestBlock != -1 ==> InnerFit(v, size, bestChunk, bestBlock)
          invariant bestBlock != -1 ==> bestChunk < c || (bestChunk == c && bestBlock < i)
          invariant bestBlock != -1 ==>
                      forall c', b' :: InnerFit(v, size, c', b') && (c' < c || (c' == c && b' < i)) ==>
                        NoBetter(v, c', b', bestChunk, bestBlock)
          invariant bestFitSize == if bestBlock != -1 && bestChunk == c then v[c].free[bestBlock].size else SIZE_MAX
        {
          var block := chunk.blocks[i];
          assert block == v[c].free[i];
          if block.size >= size && block.size <= bestFitSize {
            bestChunk, bestBlock := c, i;
            bestFitSize := block.size;
          }
          i := i + 1;
        }
      }
    }

    // Looks at the last block of every chunk.
    method FindTail(size: nat) returns (bestChunk: int)
      requires Valid()
      ensures bestChunk == -1 ==> NoTailFit(View(), size)
      ensures bestChunk != -1 ==> BestTail(View(), size, bestChunk)
    {
      bestChunk := -1;
      var bestReuse := INT64_MIN;
      ghost var v := View();
      for c := 0 to |chunks|
        invariant bestChunk == -1 ==> bestReuse == INT64_MIN && forall c' :: TailFit(v, size, c') ==> c' >= c
        invariant bestChunk != -1 ==> TailFit(v, size, bestChunk) && bestChunk < c
        invariant bestChunk != -1 ==> bestReuse == Reuse(v, size, bestChunk)
        invariant bestChunk != -1 ==> forall c' :: TailFit(v, size, c') && c' < c ==>
                    !Better(Reuse(v, size, c'), bestReuse) &&
                    (c' < bestChunk ==> Reuse(v, size, c') != bestReuse)
      {
        var chunk := chunks[c];
        assert v[c] == chunk.View();
        if chunk.nBlocks > 0 {
          var block := chunk.blocks[chunk.nBlocks - 1];
          assert block == v[c].free[|v[c].free| - 1];
          var reuseFactor := chunk.maxSize - block.offset - size;
          assert reuseFactor == Reuse(v, size, c);
          var betterReuse := bestReuse < 0 && reuseFactor > bestReuse;
          var betterFit := reuseFactor >= 0 && reuseFactor < bestReuse;
          if block.size >= size && (betterReuse || betterFit) {
            bestChunk := c;
            bestReuse := reuseFactor;
          } else {
            assert TailFit(v, size, c) ==> bestChunk != -1 by {
              if TailFit(v, size, c) { assert End(block) <= v[c].total; }
            }
          }
        }
      }
    }

    // Appends a chunk; false when there are MAX_CHUNKS of them already.
    method NewChunk(minSize: nat) returns (ok: bool)
      requires Valid() && 0 < minSize <= HALF_SIZE_MAX
      modifies this`chunks, this`Repr
      ensures Valid() && fresh(Repr - old(Repr)) && old(Repr) <= Repr
      ensures ok == (|old(View())| < MAX_CHUNKS)
      ensures View() == if ok
                        then WithChunk(old(View()), Address(|old(View())|, 0), minSize, maxChunkSize)
                        else old(View())
    {
      if |chunks| >= MAX_CHUNKS {
        return false;
      }
      var size := if minSize > maxChunkSize then minSize else maxChunkSize;
      if |chunks| == MAX_CHUNKS - 1 {
        size := HALF_SIZE_MAX;
      }
      WithChunkKeeps(View(), live, Address(|chunks|, 0), minSize, maxChunkSize, alignment);
      AddChunk(size);
      ok := true;
    }

    method AddChunk(size: nat)
      requires Shape() && |chunks| < MAX_CHUNKS
      modifies this`chunks, this`Repr
      ensures Shape() && fresh(Repr - old(Repr)) && old(Repr) <= Repr
      ensures View() == old(View()) + [ChunkView([Block(0, size)], size, 0)]
    {
      ghost var v := View();
      var chunk := new TallocrChunk(size);
      chunks := chunks + [chunk];
      Repr := Repr + {chunk, chunk.blocks};
      assert View()[..|v|] == v;
    }

    // The place for size bytes in the existing chunks, block -1 if there is none.
    method Pick(size: nat) returns (bestChunk: int, bestBlock: int)
      requires Valid()
      ensures bestBlock == -1 <==> NoInnerFit(View(), size) && NoTailFit(View(), size)
      ensures bestBlock != -1 ==>
                0 <= bestChunk < |View()| && 0 <= bestBlock < |View()[bestChunk].free| &&
                View()[bestChunk].free[bestBlock].size >= size &&
                Chosen(View(), size, Address(bestChunk, View()[bestChunk].free[bestBlock].offset))
    {
      hide Partition, LiveDisjoint, Canonical, NoBetter, Better, Reuse;
      bestChunk, bestBlock := FindInner(size);
      if bestBlock == -1 {
        bestChunk := FindTail(size);
        if bestChunk != -1 {
          bestBlock := chunks[bestChunk].nBlocks - 1;
        }
      }
    }

    // The block to take size bytes from, in a new chunk if need be.
    method FindRoom(size: nat) returns (ok: bool, c: nat, k: nat)
      requires Valid() && 0 < size <= HALF_SIZE_MAX
      modifies this`chunks, this`Repr
      ensures Valid() && fresh(Repr - old(Repr)) && old(Repr) <= Repr
      ensures ok <==> !(NoInnerFit(old(View()), size) && NoTailFit(old(View()), size) && |old(View())| >= MAX_CHUNKS)
      ensures ok ==> c < |View()| && k < |View()[c].free| && size <= View()[c].free[k].size
      ensures ok ==> Chosen(old(View()), size, Address(c, View()[c].free[k].offset))
      ensures ok ==> View() == WithChunk(old(View()), Address(c, View()[c].free[k].offset), size, maxChunkSize)
      ensures !ok ==> View() == old(View())
    {
      ok, c, k := true, 0, 0;
      var bestChunk, bestBlock := Pick(size);
      hide Partition;
      if bestBlock == -1 {
        ok := NewChunk(size);
        if !ok { return; }
        bestChunk, bestBlock := |chunks| - 1, 0;
        assert View()[bestChunk].free[0] == Block(0, FreshTotal(bestChunk, size, maxChunkSize));
      }
      c, k := bestChunk, bestBlock;
    }

    // Allocates size bytes; false when there is no room and no further chunk (the source aborts).
    method Alloc(size0: nat) returns (ok: bool, addr: Address)
      requires Valid() && 0 < size0 && AlignedOffset(size0, alignment) <= HALF_SIZE_MAX
      modifies this, Repr
      ensures Valid() && fresh(Repr - old(Repr)) && old(Repr) <= Repr
      ensures ok <==> !(NoInnerFit(old(View()), AlignedOffset(size0, alignment)) &&
                        NoTailFit(old(View()), AlignedOffset(size0, alignment)) && |old(View())| >= MAX_CHUNKS)
      ensures ok ==> Chosen(old(View()), AlignedOffset(size0, alignment), addr)
      ensures ok ==> Allocated(WithChunk(old(View()), addr, AlignedOffset(size0, alignment), maxChunkSize), View(),
                               addr, AlignedOffset(size0, alignment))
      ensures ok ==> addr !in old(live) && live == old(live)[addr := AlignedOffset(size0, alignment)]
      ensures ok ==> LiveRange(View(), addr, AlignedOffset(size0, alignment), alignment) && LiveDisjoint(live)
      ensures !ok ==> View() == old(View()) && live == old(live)
      ensures Grown(old(View()), View())
    {
      hide Partition, LiveRange, LiveDisjoint, Removed, Chosen, NoInnerFit, NoTailFit, AlignedOffset;
      var size := AlignedOffset(size0, alignment);
      var c, k;
      addr := Address(0, 0);
      ok, c, k := FindRoom(size);
      if ok {
        addr := TakeBlock(c, k, size);
      }
    }

    method TakeBlock(c: nat, k: nat, size: nat) returns (addr: Address)
      requires Valid() && c < |View()| && k < |View()[c].free|
      requires 0 < size <= View()[c].free[k].size && size % alignment == 0
      modifies this, Repr
      ensures Valid() && Repr == old(Repr)
      ensures addr == Address(c, old(View())[c].free[k].offset)
      ensures Allocated(old(View()), View(), addr, size)
      ensures addr !in old(live) && live == old(live)[addr := size]
      ensures LiveRange(View(), addr, size, alignment) && LiveDisjoint(live)
    {
      assert AllValid(View(), alignment);
      hide Partition, AllValid, Allocated;
      ghost var v := View();
      addr := CarveFrom(c, k, size);
      AllocatedKeeps(v, View(), live, addr, size, alignment);
      PartitionAt(View(), live[addr := size], addr, alignment);
      live := live[addr := size];
    }

    method CarveFrom(c: nat, k: nat, size: nat) returns (addr: Address)
      requires Shape() && AllValid(View(), alignment)
      requires c < |View()| && k < |View()[c].free|
      requires 0 < size <= View()[c].free[k].size && size % alignment == 0
      modifies Repr
      ensures Shape() && AllValid(View(), alignment)
      ensures addr == Address(c, old(View())[c].free[k].offset)
      ensures Allocated(old(View()), View(), addr, size)
    {
      addr := Address(c, chunks[c].blocks[k].offset);
      chunks[c].Take(k, size, alignment);
    }

    method ReturnTo(addr: Address, size: nat) returns (ok: bool)
      requires Shape() && AllValid(View(), alignment)
      requires addr.chunk < |View()| && addr.offset % alignment == 0 && 0 < size
      requires addr.offset + size <= View()[addr.chunk].total
      requires InUse(View()[addr.chunk].free, addr.offset, size)
      modifies Repr
      ensures ok ==> Shape() && AllValid(View(), alignment)
      ensures ok ==> Freed(old(View()), View(), addr, size)
      ensures !ok <==> ListFull(old(View()), addr, size)
    {
      ok := chunks[addr.chunk].FreeBytes(addr.offset, size, alignment);
    }

    // Frees a live range or the end of one; owner is the start of that range. False exactly when the
    // free list is full (the source aborts).
    method FreeBytes(addr: Address, size0: nat, ghost owner: Address) returns (ok: bool)
      requires Valid() && 0 < size0 && owner in live
      requires AlignedOffset(size0, alignment) <= live[owner]
      requires addr == Address(owner.chunk, owner.offset + live[owner] - AlignedOffset(size0, alignment))
      modifies this, Repr
      ensures ok ==> Valid() && Repr == old(Repr)
      ensures ok ==> Freed(old(View()), View(), addr, AlignedOffset(size0, alignment))
      ensures ok ==> live == Trimmed(old(live), owner, AlignedOffset(size0, alignment))
      ensures ok ==> Grown(old(View()), View())
      ensures !ok <==> ListFull(old(View()), addr, AlignedOffset(size0, alignment))
    {
      ghost var v := View();
      var size := AlignedOffset(size0, alignment);
      LiveEnd(v, live, owner, size, alignment);
      assert AllValid(v, alignment);
      hide Partition, AllValid, Freed, ListFull;
      ok := ReturnTo(addr, size);
      if ok {
        FreedKeeps(v, View(), live, owner, size, alignment);
        live := Trimmed(live, owner, size);
      }
    }

    method Reset()
      requires Valid()
      modifies this
      ensures Valid() && View() == [] && live == map[] && Repr <= old(Repr)
    {
      chunks := [];
      live := map[];
      Repr := {};
    }
  }
}
