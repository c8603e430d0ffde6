// The self-attention cache: cells that decoders share, and the search for free ones.
module KvCache {
  import Arith

  const POS_MAX := 0x7FFF_FFFF
  const MAX_DECODERS := 8

  // a position in the text, -1 when the cell is free, and the sequences that own it
  datatype Cell = Cell(pos: int, seqs: set<int>)

  datatype Entry = Entry(pos: int, ids: seq<int>)

  type Cells = seq<Cell>

  // ---- what the operations do to one cell ----

  predicate InPositions(c: Cell, p0: int, p1: int) {
    (if p0 < 0 then 0 else p0) <= c.pos < (if p1 < 0 then POS_MAX else p1)
  }

  // whether removing seq touches the cell
  predicate Touched(c: Cell, id: int, p0: int, p1: int) { InPositions(c, p0, p1) && (id < 0 || id in c.seqs) }

  function Without(c: Cell, id: int, p0: int, p1: int): Cell {
    if !Touched(c, id, p0, p1) then c
    else
      var rest := if id < 0 then {} else c.seqs - {id};
      Cell(if rest == {} then -1 else c.pos, rest)
  }

  // Removing a sequence, or all for a negative one, takes it from exactly the cells in use at positions
  // from p0 on and below p1, negative bounds being none; a cell that nobody owns then becomes free.
  lemma RemovedExactly(c: Cell, id: int, p0: int, p1: int)
    requires c.pos < POS_MAX
    ensures var r := Without(c, id, p0, p1); var there := c.pos >= 0 && c.pos >= p0 && (p1 < 0 || c.pos < p1);
            && (forall q :: q in r.seqs <==> q in c.seqs && !(there && (id < 0 || q == id)))
            && r.pos == if there && (id < 0 || id in c.seqs) && r.seqs == {} then -1 else c.pos
  {
  }

  // Copying a sequence adds the other one to exactly the cells that it owns there.
  lemma CopiedExactly(c: Cell, src: int, dst: int, p0: int, p1: int)
    requires c.pos < POS_MAX
    ensures var r := With(c, src, dst, p0, p1); var there := c.pos >= 0 && c.pos >= p0 && (p1 < 0 || c.pos < p1);
            && r.pos == c.pos
            && forall q :: q in r.seqs <==> q in c.seqs || (q == dst && there && src in c.seqs)
  {
  }

  predicate Freed(c: Cell, id: int, p0: int, p1: int) { Touched(c, id, p0, p1) && Without(c, id, p0, p1).seqs == {} }

  // the first cell from i on that is freed, other if there is none
  function FirstFreed(cells: Cells, id: int, p0: int, p1: int, i: nat, other: nat): (f: nat)
    requires i <= |cells|
    ensures if exists k :: i <= k < |cells| && Freed(cells[k], id, p0, p1)
            then i <= f < |cells| && Freed(cells[f], id, p0, p1) &&
                 forall k :: i <= k < f ==> !Freed(cells[k], id, p0, p1)
            else f == other
    decreases |cells| - i
  {
    if i == |cells| then other
    else if Freed(cells[i], id, p0, p1) then i
    else FirstFreed(cells, id, p0, p1, i + 1, other)
  }

  function With(c: Cell, src: int, dst: int, p0: int, p1: int): Cell {
    if src in c.seqs && InPositions(c, p0, p1) then c.(seqs := c.seqs + {dst}) else c
  }

  function IdsOf(ids: seq<int>): set<int> { set k | 0 <= k < |ids| :: ids[k] }

  function Filled(c: Cell, e: Entry): Cell { Cell(e.pos, c.seqs + IdsOf(e.ids)) }

  // ---- sequences of operations, cell by cell ----

  // owned by decoders 0 to j - 1, if owned at all
  function SharedBy(c: Cell, j: nat): Cell
    requires j > 0
  {
    if j == 1 then c else With(SharedBy(c, j - 1), 0, j - 1, -1, -1)
  }

  lemma SharedNext(c: Cell, j: nat)
    requires j > 0
    ensures SharedBy(c, j + 1) == With(SharedBy(c, j), 0, j, -1, -1)
  {
  }

  // the first j live decoders have copied their parent's ownership to a scratch id
  function CopiedOut(c: Cell, live: seq<bool>, parent: seq<nat>, j: nat): Cell
    requires j <= |live| == |parent|
  {
    if j == 0 then c
    else
      var d := CopiedOut(c, live, parent, j - 1);
      if live[j - 1] then With(d, parent[j - 1], MAX_DECODERS + j - 1, -1, -1) else d
  }

  function MoveOne(c: Cell, j: nat): Cell {
    var a := Without(c, j, -1, -1);
    var b := With(a, MAX_DECODERS + j, j, -1, -1);
    Without(b, MAX_DECODERS + j, -1, -1)
  }

  // the first j live decoders have taken their scratch id's ownership
  function MovedIn(c: Cell, live: seq<bool>, j: nat): Cell
    requires j <= |live|
  {
    if j == 0 then c
    else
      var d := MovedIn(c, live, j - 1);
      if live[j - 1] then MoveOne(d, j - 1) else d
  }

  function Shuffled(c: Cell, live: seq<bool>, parent: seq<nat>): Cell
    requires |live| == |parent|
  {
    MovedIn(CopiedOut(c, live, parent, |live|), live, |live|)
  }

  // ---- free windows ----

  predicate FreeWindow(cells: Cells, at: int, n: nat) {
    0 <= at && at + n <= |cells| && forall i :: at <= i < at + n ==> cells[i].pos < 0
  }

  // no free window starts in from..to
  predicate RuledOut(cells: Cells, from: int, to: int, n: nat) {
    forall at :: from <= at < to ==> !FreeWindow(cells, at, n)
  }

  function Placed(cells: Cells, at: nat, batch: seq<Entry>): (r: Cells)
    requires at + |batch| <= |cells|
    ensures |r| == |cells|
  {
    seq(|cells|, i requires 0 <= i < |cells| =>
      if at <= i < at + |batch| then Filled(cells[i], batch[i - at]) else cells[i])
  }

  predicate Used(c: Cell) { c.pos >= 0 && c.seqs != {} }

  // the smallest multiple of pad that is at least x
  function Padded(x: nat, pad: nat): (r: nat)
    requires pad > 0
    ensures x <= r < x + pad && r % pad == 0
  {
    Arith.MultipleMod((x + pad - 1) / pad, pad);
    (x + pad - 1) / pad * pad
  }

  class Cache {
    var cells: array<Cell>
    var head: nat
    // how many cells attention looks at
    var n: nat

    ghost predicate Valid()
      reads this
    {
      cells.Length > 0 && head <= cells.Length
    }

    constructor (size: nat)
      requires size > 0
      ensures Valid() && fresh(cells) && cells.Length == size && head == 0
      ensures forall i :: 0 <= i < size ==> cells[i] == Cell(-1, {})
    {
      cells := new Cell[size](_ => Cell(-1, {}));
      head := 0;
      n := 0;
    }

    // tries every start once around the ring, from head on
    method FindWindow(count: nat) returns (found: bool)
      requires Valid()
      modifies `head
      ensures Valid()
      ensures found <==> exists at :: FreeWindow(cells[..], at, count)
      ensures found ==> FreeWindow(cells[..], head, count)
    {
      var size := cells.Length;
      if count > size { return false; }
      var tested := 0;
      ghost var start := head;
      ghost var wrapped := false;
      while true
        invariant Valid() && size == cells.Length && start <= size
        invariant tested < size ==> tested == if wrapped then size - start + head else head - start
        invariant tested < size ==> if wrapped then head <= start else start <= head
        invariant tested < size ==> RuledOut(cells[..], start, if wrapped then size else head, count)
        invariant tested < size && wrapped ==> RuledOut(cells[..], 0, head, count)
        invariant tested >= size ==> head == 0 && RuledOut(cells[..], 0, size, count)
        decreases size - tested, if head + count > size then 1 else 0
      {
        if head + count > size {
          assert RuledOut(cells[..], head, size, count);
          tested := tested + (size - head);
          head := 0;
          wrapped := true;
          continue;
        }
        var i := 0;
        while i < count && cells[head + i].pos < 0
          invariant 0 <= i <= count && forall k :: head <= k < head + i ==> cells[k].pos < 0
        {
          i := i + 1;
        }
        if i == count {
          assert FreeWindow(cells[..], head, count);
          return true;
        }
        assert RuledOut(cells[..], head, head + i + 1, count) by {
          assert cells[..][head + i].pos >= 0;
        }
        head := head + i + 1;
        tested := tested + i + 1;
        if tested >= size {
          return false;
        }
      }
    }

    method FindSlot(batch: seq<Entry>) returns (ok: bool)
      requires Valid()
      modifies `head, cells
      ensures Valid()
      ensures ok <==> exists at :: FreeWindow(old(cells[..]), at, |batch|)
      ensures ok ==> FreeWindow(old(cells[..]), head, |batch|) && cells[..] == Placed(old(cells[..]), head, batch)
      ensures !ok ==> cells[..] == old(cells[..])
    {
      ghost var was := cells[..];
      ok := FindWindow(|batch|);
      assert cells[..] == was;
      if !ok { return; }
      ghost var at := head;
      for i := 0 to |batch|
        invariant Valid() && head == at
        invariant forall k :: 0 <= k < cells.Length ==>
                    cells[k] == if head <= k < head + i then Filled(was[k], batch[k - head]) else was[k]
      {
        hide Filled;
        cells[head + i] := FillCell(cells[head + i], batch[i]);
      }
    }

    // one past the last cell in use, at least 1
    method CellMax() returns (m: nat)
      requires Valid()
      ensures 1 <= m <= cells.Length
      ensures forall k :: m <= k < cells.Length ==> !Used(cells[k])
      ensures m > 1 ==> Used(cells[m - 1])
    {
      var i := cells.Length - 1;
      while i > 0
        invariant 0 <= i < cells.Length && forall k :: i < k < cells.Length ==> !Used(cells[k])
      {
        if cells[i].pos >= 0 && cells[i].seqs != {} { return i + 1; }
        i := i - 1;
      }
      m := 1;
    }

    method SetN(pad: nat)
      requires Valid() && pad > 0
      modifies `n
      ensures n <= cells.Length && forall k :: n <= k < cells.Length ==> !Used(cells[k])
      // and no further than padding makes it: up to the first multiple of pad behind the used cells
      ensures n < cells.Length ==> n % pad == 0 && (n == pad || exists k :: 0 <= n - pad <= k < n && Used(cells[k]))
    {
      var m := CellMax();
      var p := Padded(m, pad);
      var least := if p < pad then pad else p;
      n := if cells.Length < least then cells.Length else least;
    }

    method Clear()
      requires Valid()
      modifies `head, cells
      ensures Valid() && head == 0 && forall k :: 0 <= k < cells.Length ==> cells[k] == Cell(-1, {})
    {
      for i := 0 to cells.Length
        invariant Valid() && forall k :: 0 <= k < i ==> cells[k] == Cell(-1, {})
      {
        cells[i] := Cell(-1, {});
      }
      head := 0;
    }

    method SeqRm(id: int, p0: int, p1: int)
      requires Valid()
      modifies `head, cells
      ensures Valid()
      ensures forall k :: 0 <= k < cells.Length ==> cells[k] == Without(old(cells[..])[k], id, p0, p1)
      // the search restarts at the first cell that was freed
      ensures head == FirstFreed(old(cells[..]), id, p0, p1, 0, old(head))
    {
      ghost var was := cells[..];
      var newHead := cells.Length;
      var from := if p0 < 0 then 0 else p0;
      var to := if p1 < 0 then POS_MAX else p1;
      for i := 0 to cells.Length
        invariant forall k :: 0 <= k < i ==> cells[k] == Without(was[k], id, p0, p1)
        invariant forall k :: i <= k < cells.Length ==> cells[k] == was[k]
        invariant Valid() && head == old(head) && (newHead == cells.Length || 0 <= newHead < i)
        invariant FirstFreed(was, id, p0, p1, 0, head) ==
                  if newHead == cells.Length then FirstFreed(was, id, p0, p1, i, head) else newHead
      {
        var c := cells[i];
        assert Touched(c, id, p0, p1) <==> from <= c.pos < to && (id < 0 || id in c.seqs);
        if from <= c.pos < to {
          if id < 0 {
            c := c.(seqs := {});
          } else if id in c.seqs {
            c := c.(seqs := c.seqs - {id});
          } else {
            continue;
          }
          if c.seqs == {} {
            c := c.(pos := -1);
            if newHead == cells.Length { newHead := i; }
          }
          cells[i] := c;
        }
      }
      if newHead != cells.Length { head := newHead; }
    }

    method SeqCp(src: int, dst: int, p0: int, p1: int)
      requires Valid()
      modifies `head, cells
      ensures Valid() && head == 0
      ensures forall k :: 0 <= k < cells.Length ==> cells[k] == With(old(cells[..])[k], src, dst, p0, p1)
    {
      ghost var was := cells[..];
      var from := if p0 < 0 then 0 else p0;
      var to := if p1 < 0 then POS_MAX else p1;
      head := 0;
      for i := 0 to cells.Length
        invariant Valid() && head == 0
        invariant forall k :: 0 <= k < i ==> cells[k] == With(was[k], src, dst, p0, p1)
        invariant forall k :: i <= k < cells.Length ==> cells[k] == was[k]
      {
        if src in cells[i].seqs && cells[i].pos >= from && cells[i].pos < to {
          cells[i] := cells[i].(seqs := cells[i].seqs + {dst});
        }
      }
    }

    // decoders 1 to decoders - 1 get what decoder 0 owns
    method ShareFirst(decoders: nat)
      requires Valid() && decoders > 0
      modifies `head, cells
      ensures Valid()
      ensures forall k :: 0 <= k < cells.Length ==> cells[k] == SharedBy(old(cells[..])[k], decoders)
    {
      ghost var was := cells[..];
      for j := 1 to decoders
        invariant Valid()
        invariant forall k :: 0 <= k < cells.Length ==> cells[k] == SharedBy(was[k], j)
      {
        hide With;
        ghost var before := cells[..];
        SeqCp(0, j, -1, -1);
        forall k | 0 <= k < cells.Length ensures cells[k] == SharedBy(was[k], j + 1) {
          assert before[k] == SharedBy(was[k], j);
          SharedNext(was[k], j);
        }
      }
    }

    // every live decoder's scratch id gets what its parent owns
    method CopyOut(live: seq<bool>, parents: seq<nat>)
      requires Valid() && |live| == |parents|
      modifies `head, cells
      ensures Valid()
      ensures forall k :: 0 <= k < cells.Length ==> cells[k] == CopiedOut(old(cells[..])[k], live, parents, |live|)
    {
      ghost var was := cells[..];
      for j := 0 to |live|
        invariant Valid()
        invariant forall k :: 0 <= k < cells.Length ==> cells[k] == CopiedOut(was[k], live, parents, j)
      {
        hide With;
        ghost var before := cells[..];
        if live[j] { SeqCp(parents[j], MAX_DECODERS + j, -1, -1); }
        forall k | 0 <= k < cells.Length ensures cells[k] == CopiedOut(was[k], live, parents, j + 1) {
          assert before[k] == CopiedOut(was[k], live, parents, j);
        }
      }
    }

    // every live decoder gives up what it owns and takes over from its scratch id
    method MoveIn(live: seq<bool>)
      requires Valid()
      modifies `head, cells
      ensures Valid()
      ensures forall k :: 0 <= k < cells.Length ==> cells[k] == MovedIn(old(cells[..])[k], live, |live|)
    {
      ghost var was := cells[..];
      for j := 0 to |live|
        invariant Valid()
        invariant forall k :: 0 <= k < cells.Length ==> cells[k] == MovedIn(was[k], live, j)
      {
        ghost var before := cells[..];
        if live[j] { MoveScratch(j); }
        forall k | 0 <= k < cells.Length ensures cells[k] == MovedIn(was[k], live, j + 1) {
          assert before[k] == MovedIn(was[k], live, j);
        }
      }
    }

    method MoveScratch(j: nat)
      requires Valid()
      modifies `head, cells
      ensures Valid()
      ensures forall k :: 0 <= k < cells.Length ==> cells[k] == MoveOne(old(cells[..])[k], j)
    {
      hide With, Without, Freed;
      ghost var was := cells[..];
      SeqRm(j, -1, -1);
      ghost var a := cells[..];
      SeqCp(MAX_DECODERS + j, j, -1, -1);
      ghost var b := cells[..];
      SeqRm(MAX_DECODERS + j, -1, -1);
      forall k | 0 <= k < cells.Length ensures cells[k] == MoveOne(was[k], j) {
        assert a[k] == Without(was[k], j, -1, -1) && b[k] == With(a[k], MAX_DECODERS + j, j, -1, -1);
      }
    }

    // which of the first n cells each token may attend to
    method FillMask(batch: seq<Entry>) returns (visible: array2<bool>)
      requires Valid() && n <= cells.Length
      requires forall j :: 0 <= j < |batch| ==> batch[j].ids != []
      ensures fresh(visible) && visible.Length0 == |batch| && visible.Length1 == n
      ensures forall j, i :: 0 <= j < |batch| && 0 <= i < n ==> visible[j, i] == Visible(cells[i], batch[j])
    {
      visible := new bool[|batch|, n]((_, _) => true);
      for j := 0 to |batch|
        invariant forall k, i :: 0 <= k < |batch| && 0 <= i < n ==>
                    visible[k, i] == (k < j ==> Visible(cells[i], batch[k]))
      {
        var pos, id := batch[j].pos, batch[j].ids[0];
        for i := 0 to n
          invariant forall k, l :: 0 <= k < |batch| && 0 <= l < n ==>
                      visible[k, l] == (k < j || (k == j && l < i) ==> Visible(cells[l], batch[k]))
        {
          if id !in cells[i].seqs || cells[i].pos > pos { visible[j, i] := false; }
        }
      }
    }
  }

  predicate Visible(c: Cell, e: Entry)
    requires e.ids != []
  {
    e.ids[0] in c.seqs && c.pos <= e.pos
  }

  lemma IdsOfNext(ids: seq<int>, j: nat)
    requires j < |ids|
    ensures IdsOf(ids[..j + 1]) == IdsOf(ids[..j]) + {ids[j]}
  {
    var a, b := ids[..j + 1], ids[..j];
    forall x ensures x in IdsOf(a) <==> x in IdsOf(b) + {ids[j]} {
      if x in IdsOf(a) {
        var k :| 0 <= k < |a| && a[k] == x;
        if k < j { assert b[k] == x; }
      }
      if x in IdsOf(b) {
        var k :| 0 <= k < |b| && b[k] == x;
        assert a[k] == x;
      }
      assert a[j] == ids[j];
    }
  }

  method FillCell(c: Cell, e: Entry) returns (r: Cell)
    ensures r == Filled(c, e)
  {
    r := c.(pos := e.pos);
    for j := 0 to |e.ids|
      invariant r == Cell(e.pos, c.seqs + IdsOf(e.ids[..j]))
    {
      IdsOfNext(e.ids, j);
      r := r.(seqs := r.seqs + {e.ids[j]});
    }
    assert e.ids[..|e.ids|] == e.ids;
  }
}
