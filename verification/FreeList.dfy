// The free list of one allocator chunk, as a value: a sorted list of blocks.
// The byte-level meaning of a list is the predicate FreeAt; for lists in canonical
// form (sorted, non-empty, never touching) the meaning determines the list.
module FreeList {

  datatype Block = Block(offset: nat, size: nat)

  function End(b: Block): nat { b.offset + b.size }

  predicate Inside(b: Block, x: int) { b.offset <= x < b.offset + b.size }

  ghost predicate FreeAt(bs: seq<Block>, x: int) {
    exists i :: 0 <= i < |bs| && Inside(bs[i], x)
  }

  // sorted by address, no empty block, and neighbours separated by at least one byte
  ghost predicate Canonical(bs: seq<Block>) {
    && (forall i :: 0 <= i < |bs| ==> bs[i].size > 0)
    && (forall i, j :: 0 <= i < j < |bs| ==> End(bs[i]) < bs[j].offset)
  }

  // every block starts at a multiple of the alignment and stays inside the chunk
  ghost predicate WithinChunk(bs: seq<Block>, total: nat, alignment: nat)
    requires alignment > 0
  {
    forall i :: 0 <= i < |bs| ==> End(bs[i]) <= total && bs[i].offset % alignment == 0
  }

  // b may stand between the blocks before i and those from j on without touching either
  ghost predicate Separated(bs: seq<Block>, i: nat, j: nat, b: Block)
    requires i <= j <= |bs|
  {
    && b.size > 0
    && (forall k :: 0 <= k < i ==> End(bs[k]) < b.offset)
    && (forall k :: j <= k < |bs| ==> End(b) < bs[k].offset)
  }

  function Spliced(bs: seq<Block>, i: nat, j: nat, b: Block): seq<Block>
    requires i <= j <= |bs|
  {
    bs[..i] + [b] + bs[j..]
  }

  lemma FreeAtConcat(a: seq<Block>, b: seq<Block>, x: int)
    ensures FreeAt(a + b, x) <==> FreeAt(a, x) || FreeAt(b, x)
  {
    var r := a + b;
    if FreeAt(a, x) {
      var k :| 0 <= k < |a| && Inside(a[k], x);
      assert r[k] == a[k];
    }
    if FreeAt(b, x) {
      var k :| 0 <= k < |b| && Inside(b[k], x);
      assert r[|a| + k] == b[k];
    }
  }

  // Replacing blocks i..j by one block that touches no other keeps the list canonical.
  lemma SpliceCanonical(bs: seq<Block>, i: nat, j: nat, b: Block)
    requires i <= j <= |bs| && Canonical(bs) && Separated(bs, i, j, b)
    ensures Canonical(Spliced(bs, i, j, b))
  {
    var r := Spliced(bs, i, j, b);
    forall k, l | 0 <= k < l < |r|
      ensures End(r[k]) < r[l].offset
    {
      assert r[k] == if k < i then bs[k] else if k == i then b else bs[k - i - 1 + j];
      assert r[l] == if l < i then bs[l] else if l == i then b else bs[l - i - 1 + j];
    }
  }

  lemma SpliceFreeAt(bs: seq<Block>, i: nat, j: nat, b: Block, x: int)
    requires i <= j <= |bs|
    ensures FreeAt(Spliced(bs, i, j, b), x) <==>
            FreeAt(bs[..i], x) || Inside(b, x) || FreeAt(bs[j..], x)
  {
    FreeAtConcat(bs[..i] + [b], bs[j..], x);
    FreeAtConcat(bs[..i], [b], x);
    if Inside(b, x) { assert Inside([b][0], x); }
  }

  lemma FreeAtSplit(bs: seq<Block>, i: nat, j: nat, x: int)
    requires i <= j <= |bs|
    ensures FreeAt(bs, x) <==> FreeAt(bs[..i], x) || FreeAt(bs[i..j], x) || FreeAt(bs[j..], x)
  {
    assert bs == bs[..i] + bs[i..j] + bs[j..];
    FreeAtConcat(bs[..i] + bs[i..j], bs[j..], x);
    FreeAtConcat(bs[..i], bs[i..j], x);
  }

  // Canonical lists with the same free bytes are the same list.
  lemma {:induction false} CanonicalUnique(a: seq<Block>, b: seq<Block>)
    requires Canonical(a) && Canonical(b)
    requires forall x :: FreeAt(a, x) <==> FreeAt(b, x)
    ensures a == b
  {
    if a == [] || b == [] {
      if a != [] { assert Inside(a[0], a[0].offset); assert FreeAt(a, a[0].offset); }
      if b != [] { assert Inside(b[0], b[0].offset); assert FreeAt(b, b[0].offset); }
    } else {
      FirstBlock(a, b);
      FirstBlock(b, a);
      forall x
        ensures FreeAt(a[1..], x) <==> FreeAt(b[1..], x)
      {
        FreeAtSplit(a, 0, 1, x);
        FreeAtSplit(b, 0, 1, x);
        assert a[0..1] == [a[0]] && b[0..1] == [b[0]];
        if FreeAt(a[1..], x) { var k :| 0 <= k < |a[1..]| && Inside(a[1..][k], x); assert a[k + 1] == a[1..][k]; }
        if FreeAt(b[1..], x) { var k :| 0 <= k < |b[1..]| && Inside(b[1..][k], x); assert b[k + 1] == b[1..][k]; }
      }
      CanonicalUnique(a[1..], b[1..]);
      assert a == [a[0]] + a[1..] && b == [b[0]] + b[1..];
    }
  }

  // the byte just past a block is never free: blocks do not touch
  lemma EndNotFree(bs: seq<Block>, i: nat)
    requires Canonical(bs) && i < |bs|
    ensures !FreeAt(bs, End(bs[i]))
  {
  }

  lemma FirstBlock(a: seq<Block>, b: seq<Block>)
    requires Canonical(a) && Canonical(b) && a != [] && b != []
    requires forall x :: FreeAt(a, x) <==> FreeAt(b, x)
    ensures b[0].offset <= a[0].offset
    ensures a[0].offset == b[0].offset ==> a[0].size <= b[0].size
  {
    assert Inside(a[0], a[0].offset);
    assert FreeAt(b, a[0].offset);
    EndNotFree(b, 0);
    assert !FreeAt(a, End(b[0]));
    assert !Inside(a[0], End(b[0]));
  }

  // r is the canonical list whose free bytes are those of bs plus the range [o, o+n)
  ghost predicate Added(bs: seq<Block>, r: seq<Block>, o: nat, n: nat) {
    && Canonical(r)
    && (forall x :: FreeAt(r, x) <==> FreeAt(bs, x) || o <= x < o + n)
  }

  // r is the canonical list whose free bytes are those of bs minus the range [o, o+n)
  ghost predicate Removed(bs: seq<Block>, r: seq<Block>, o: nat, n: nat) {
    && Canonical(r)
    && (forall x :: o <= x < o + n ==> FreeAt(bs, x))
    && (forall x :: FreeAt(r, x) <==> FreeAt(bs, x) && !(o <= x < o + n))
  }

  ghost predicate InUse(bs: seq<Block>, o: nat, n: nat) {
    forall x :: o <= x < o + n ==> !FreeAt(bs, x)
  }

  // a range in use overlaps no block
  lemma InUseGap(bs: seq<Block>, o: nat, n: nat, k: nat)
    requires InUse(bs, o, n) && n > 0 && k < |bs| && bs[k].size > 0
    ensures End(bs[k]) <= o || o + n <= bs[k].offset
  {
    var m := if o < bs[k].offset then bs[k].offset else o;
    assert Inside(bs[k], m) ==> FreeAt(bs, m);
  }

  lemma SpliceAdds(bs: seq<Block>, i: nat, j: nat, b: Block, o: nat, n: nat)
    requires i <= j <= |bs| && Canonical(bs) && Separated(bs, i, j, b)
    requires forall x :: Inside(b, x) <==> FreeAt(bs[i..j], x) || o <= x < o + n
    ensures Added(bs, Spliced(bs, i, j, b), o, n)
  {
    SpliceCanonical(bs, i, j, b);
    forall x
      ensures FreeAt(Spliced(bs, i, j, b), x) <==> FreeAt(bs, x) || o <= x < o + n
    {
      SpliceFreeAt(bs, i, j, b, x);
      FreeAtSplit(bs, i, j, x);
    }
  }

  // the freed range ends where no block begins and follows block i directly
  lemma GrowUp(bs: seq<Block>, i: nat, o: nat, n: nat)
    requires Canonical(bs) && i < |bs| && InUse(bs, o, n) && n > 0 && End(bs[i]) == o
    requires i + 1 < |bs| ==> o + n != bs[i + 1].offset
    ensures Added(bs, bs[i := Block(bs[i].offset, bs[i].size + n)], o, n)
  {
    var b := Block(bs[i].offset, bs[i].size + n);
    forall k | i + 1 <= k < |bs| ensures End(b) < bs[k].offset {
      InUseGap(bs, o, n, k);
      if k > i + 1 { InUseGap(bs, o, n, i + 1); }
    }
    assert bs[i..i+1] == [bs[i]];
    assert [bs[i]][0] == bs[i];
    assert forall x :: FreeAt([bs[i]], x) <==> Inside(bs[i], x);
    SpliceAdds(bs, i, i + 1, b, o, n);
    assert bs[i := b] == Spliced(bs, i, i + 1, b);
  }

  // the freed range closes the hole between blocks i and i+1
  lemma GrowBoth(bs: seq<Block>, i: nat, o: nat, n: nat)
    requires Canonical(bs) && i + 1 < |bs| && InUse(bs, o, n) && n > 0
    requires End(bs[i]) == o && o + n == bs[i + 1].offset
    ensures Added(bs, Spliced(bs, i, i + 2, Block(bs[i].offset, bs[i].size + n + bs[i + 1].size)), o, n)
  {
    var b := Block(bs[i].offset, bs[i].size + n + bs[i + 1].size);
    assert bs[i..i+2] == [bs[i]] + [bs[i + 1]];
    forall x
      ensures Inside(b, x) <==> FreeAt(bs[i..i+2], x) || o <= x < o + n
    {
      FreeAtConcat([bs[i]], [bs[i + 1]], x);
      assert [bs[i]][0] == bs[i] && [bs[i + 1]][0] == bs[i + 1];
    }
    SpliceAdds(bs, i, i + 2, b, o, n);
  }

  // the freed range lies directly before block i and follows no block
  lemma GrowDown(bs: seq<Block>, i: nat, o: nat, n: nat)
    requires Canonical(bs) && i < |bs| && InUse(bs, o, n) && n > 0 && o + n == bs[i].offset
    requires forall k :: 0 <= k < i ==> End(bs[k]) != o
    ensures Added(bs, bs[i := Block(o, bs[i].size + n)], o, n)
  {
    var b := Block(o, bs[i].size + n);
    forall k | 0 <= k < i ensures End(bs[k]) < o {
      InUseGap(bs, o, n, k);
    }
    assert bs[i..i+1] == [bs[i]];
    assert [bs[i]][0] == bs[i];
    assert forall x :: FreeAt([bs[i]], x) <==> Inside(bs[i], x);
    SpliceAdds(bs, i, i + 1, b, o, n);
    assert bs[i := b] == Spliced(bs, i, i + 1, b);
  }

  // the freed range touches no block and goes to its place in address order
  lemma InsertAdds(bs: seq<Block>, p: nat, o: nat, n: nat)
    requires Canonical(bs) && p <= |bs| && InUse(bs, o, n) && n > 0
    requires forall k :: 0 <= k < |bs| ==> End(bs[k]) != o && o + n != bs[k].offset
    requires forall k :: 0 <= k < p ==> bs[k].offset < o
    requires p < |bs| ==> o <= bs[p].offset
    ensures Added(bs, Spliced(bs, p, p, Block(o, n)), o, n)
  {
    forall k | 0 <= k < |bs|
      ensures if k < p then End(bs[k]) < o else o + n < bs[k].offset
    {
      InUseGap(bs, o, n, k);
    }
    assert bs[p..p] == [];
    SpliceAdds(bs, p, p, Block(o, n), o, n);
  }

  // what allocating the first n bytes of block k leaves of the list
  function Carved(bs: seq<Block>, k: nat, n: nat): seq<Block>
    requires k < |bs| && 0 < n <= bs[k].size
  {
    if n == bs[k].size then bs[..k] + bs[k + 1..]
    else bs[k := Block(bs[k].offset + n, bs[k].size - n)]
  }

  lemma CarveRemoves(bs: seq<Block>, k: nat, n: nat)
    requires Canonical(bs) && k < |bs| && 0 < n <= bs[k].size
    ensures Removed(bs, Carved(bs, k, n), bs[k].offset, n)
  {
    var r := Carved(bs, k, n);
    CarveCanonical(bs, k, n);
    forall x
      ensures FreeAt(r, x) <==> FreeAt(bs, x) && !(bs[k].offset <= x < bs[k].offset + n)
    {
      CarveFreeAt(bs, k, n, x);
    }
    forall x | bs[k].offset <= x < bs[k].offset + n ensures FreeAt(bs, x) {
      assert Inside(bs[k], x);
    }
  }

  lemma CarveCanonical(bs: seq<Block>, k: nat, n: nat)
    requires Canonical(bs) && k < |bs| && 0 < n <= bs[k].size
    ensures Canonical(Carved(bs, k, n))
  {
    if n == bs[k].size {
      var r := bs[..k] + bs[k + 1..];
      assert forall i :: 0 <= i < |r| ==> r[i] == if i < k then bs[i] else bs[i + 1];
    }
  }

  lemma CarveFreeAt(bs: seq<Block>, k: nat, n: nat, x: int)
    requires Canonical(bs) && k < |bs| && 0 < n <= bs[k].size
    ensures FreeAt(Carved(bs, k, n), x) <==> FreeAt(bs, x) && !(bs[k].offset <= x < bs[k].offset + n)
  {
    if n == bs[k].size {
      FreeAtSplit(bs, k, k + 1, x);
      FreeAtConcat(bs[..k], bs[k + 1..], x);
      assert bs[k..k+1] == [bs[k]];
      OthersOutside(bs, k, x);
    } else {
      var b := Block(bs[k].offset + n, bs[k].size - n);
      assert Carved(bs, k, n) == Spliced(bs, k, k + 1, b);
      SpliceFreeAt(bs, k, k + 1, b, x);
      FreeAtSplit(bs, k, k + 1, x);
      assert bs[k..k+1] == [bs[k]];
      OthersOutside(bs, k, x);
    }
  }

  lemma OthersOutside(bs: seq<Block>, k: nat, x: int)
    requires Canonical(bs) && k < |bs|
    ensures FreeAt([bs[k]], x) <==> Inside(bs[k], x)
    ensures FreeAt(bs[..k], x) || FreeAt(bs[k + 1..], x) ==> !Inside(bs[k], x)
  {
    if Inside(bs[k], x) { assert Inside([bs[k]][0], x); }
    if FreeAt(bs[..k], x) {
      var i :| 0 <= i < k && Inside(bs[..k][i], x);
      assert End(bs[i]) < bs[k].offset;
    } else if FreeAt(bs[k + 1..], x) {
      var i :| 0 <= i < |bs[k + 1..]| && Inside(bs[k + 1..][i], x);
      assert End(bs[k]) < bs[k + 1 + i].offset;
    }
  }
}
