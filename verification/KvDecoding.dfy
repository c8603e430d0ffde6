// Several decoders over one cache: who owns which cells, from the prompt to the last token.
module KvDecoding {
  import opened KvCache

  // free exactly when nobody owns it; only decoders own cells
  predicate Sound(c: Cell, decoders: nat) {
    (c.pos >= 0 <==> c.seqs != {}) && -1 <= c.pos < POS_MAX && forall id :: id in c.seqs ==> 0 <= id < decoders
  }

  ghost predicate AllSound(cells: Cells, decoders: nat) {
    forall i :: 0 <= i < |cells| ==> Sound(cells[i], decoders)
  }

  predicate Holds(c: Cell, id: int, p: int) { id in c.seqs && c.pos == p }

  predicate HasPosition(cells: Cells, id: int, p: int) {
    exists i :: 0 <= i < |cells| && Holds(cells[i], id, p)
  }

  // id owns one cell for every position below len, and no other
  ghost predicate OwnsText(cells: Cells, id: int, len: nat) {
    && (forall p :: 0 <= p < len ==> HasPosition(cells, id, p))
    && (forall i :: 0 <= i < |cells| && id in cells[i].seqs ==> 0 <= cells[i].pos < len)
    && (forall i, k :: 0 <= i < k < |cells| && id in cells[i].seqs && id in cells[k].seqs ==>
        cells[i].pos != cells[k].pos)
  }

  // id' owns in b what id owned in a
  ghost predicate TakesOver(a: Cells, id: int, b: Cells, id': int) {
    |a| == |b| &&
    forall i :: 0 <= i < |b| ==> (id' in b[i].seqs <==> id in a[i].seqs) && (id in a[i].seqs ==> b[i].pos == a[i].pos)
  }

  lemma OwnsTransfers(a: Cells, id: int, b: Cells, id': int, len: nat)
    requires TakesOver(a, id, b, id') && OwnsText(a, id, len)
    ensures OwnsText(b, id', len)
  {
    forall p | 0 <= p < len ensures HasPosition(b, id', p) {
      assert HasPosition(a, id, p);
      var i :| 0 <= i < |a| && Holds(a[i], id, p);
      assert Holds(b[i], id', p);
    }
  }

  // id' owns in b, at positions below past, what id owned in a
  ghost predicate Inherits(a: Cells, id: int, b: Cells, id': int, past: nat) {
    |a| == |b| &&
    forall i :: 0 <= i < |b| ==>
      (id' in b[i].seqs && b[i].pos < past <==> id in a[i].seqs) && (id in a[i].seqs ==> b[i].pos == a[i].pos)
  }

  lemma InheritsAfter(a: Cells, q: int, b: Cells, c: Cells, j: int, past: nat)
    requires TakesOver(a, q, b, j) && Inherits(b, j, c, j, past)
    ensures Inherits(a, q, c, j, past)
  {
  }

  lemma TakesOverSame(a: Cells, id: int)
    ensures TakesOver(a, id, a, id)
  {
  }

  // ---- the beam shuffle, cell by cell ----

  // j's scratch id was taken by the first k decoders
  predicate Marked(c: Cell, live: seq<bool>, parent: seq<nat>, k: nat, id: int)
    requires k <= |live| == |parent|
  {
    MAX_DECODERS <= id < MAX_DECODERS + k && live[id - MAX_DECODERS] && parent[id - MAX_DECODERS] in c.seqs
  }

  lemma {:induction false} CopiedOutIs(c: Cell, live: seq<bool>, parent: seq<nat>, j: nat)
    requires Sound(c, MAX_DECODERS) && j <= |live| == |parent| <= MAX_DECODERS
    requires forall k :: 0 <= k < |parent| ==> parent[k] < MAX_DECODERS
    ensures var r := CopiedOut(c, live, parent, j);
            && r.pos == c.pos && (r.seqs == {} <==> c.seqs == {})
            && forall id :: id in r.seqs <==> id in c.seqs || Marked(c, live, parent, j, id)
  {
    if j > 0 {
      CopiedOutIs(c, live, parent, j - 1);
      if live[j - 1] { assert Marked(c, live, parent, j, MAX_DECODERS + j - 1) <==> parent[j - 1] in c.seqs; }
    }
  }

  // after the first j decoders have moved in: their ids are owned as their scratch ids were
  predicate HasMoved(d: Cell, live: seq<bool>, j: nat, id: int)
    requires j <= |live| <= MAX_DECODERS
  {
    if 0 <= id < j && live[id] then MAX_DECODERS + id in d.seqs
    else id in d.seqs && !(MAX_DECODERS <= id < MAX_DECODERS + j && live[id - MAX_DECODERS])
  }

  lemma {:induction false} MovedInIs(d: Cell, live: seq<bool>, j: nat)
    requires (d.pos >= 0 <==> d.seqs != {}) && -1 <= d.pos < POS_MAX && j <= |live| <= MAX_DECODERS
    ensures var r := MovedIn(d, live, j);
            && (forall id :: id in r.seqs <==> HasMoved(d, live, j, id))
            && r.pos == (if r.seqs == {} then -1 else d.pos) && (r.seqs != {} ==> d.seqs != {})
  {
    if j > 0 {
      MovedInIs(d, live, j - 1);
      var e := MovedIn(d, live, j - 1);
      if live[j - 1] { MoveOneIs(e, j - 1); }
      var r := MovedIn(d, live, j);
      if id :| id in r.seqs { assert HasMoved(d, live, j, id); }
    }
  }

  lemma MoveOneIs(e: Cell, j: nat)
    requires (e.pos >= 0 <==> e.seqs != {}) && -1 <= e.pos < POS_MAX && j < MAX_DECODERS
    ensures var r := MoveOne(e, j);
            && (forall id :: id in r.seqs <==>
                  if id == j then MAX_DECODERS + j in e.seqs else id in e.seqs && id != MAX_DECODERS + j)
            && r.pos == (if r.seqs == {} then -1 else e.pos)
  {
    var a := Without(e, j, -1, -1);
    assert a.seqs == e.seqs - {j};
    var b := With(a, MAX_DECODERS + j, j, -1, -1);
    if MAX_DECODERS + j in e.seqs {
      assert MAX_DECODERS + j in a.seqs;
      assert b.seqs == e.seqs - {j} + {j};
      assert j in MoveOne(e, j).seqs;
    } else {
      assert b == a;
    }
  }

  // The shuffle is one parallel assignment of ownership, whatever the parents are: swaps and
  // duplicates included. Finished decoders keep their cells, no scratch id remains, and a cell is
  // free exactly when nobody owns it any more.
  lemma ParallelAssignment(c: Cell, live: seq<bool>, parent: seq<nat>)
    requires Sound(c, |live|) && |live| == |parent| <= MAX_DECODERS
    requires forall k :: 0 <= k < |parent| ==> parent[k] < |live|
    ensures var r := Shuffled(c, live, parent);
            && (forall j :: 0 <= j < |live| ==> (j in r.seqs <==> if live[j] then parent[j] in c.seqs else j in c.seqs))
            && Sound(r, |live|)
            && r.pos == (if r.seqs == {} then -1 else c.pos)
  {
    var d := CopiedOut(c, live, parent, |live|);
    CopiedOutIs(c, live, parent, |live|);
    MovedInIs(d, live, |live|);
    var r := Shuffled(c, live, parent);
    forall j | 0 <= j < |live|
      ensures j in r.seqs <==> if live[j] then parent[j] in c.seqs else j in c.seqs
    {
      assert HasMoved(d, live, |live|, j) <==> j in r.seqs;
      assert Marked(c, live, parent, |live|, MAX_DECODERS + j) <==> live[j] && parent[j] in c.seqs;
    }
    forall id | id in r.seqs ensures 0 <= id < |live| {
      assert HasMoved(d, live, |live|, id);
    }
  }

  // ---- batches ----

  // one token at position past for each live decoder
  ghost predicate OneEach(batch: seq<Entry>, live: seq<bool>, past: nat) {
    && (forall r :: 0 <= r < |batch| ==>
          batch[r].pos == past && |batch[r].ids| == 1 && 0 <= batch[r].ids[0] < |live| && live[batch[r].ids[0]])
    && (forall r, s :: 0 <= r < s < |batch| ==> batch[r].ids[0] != batch[s].ids[0])
    && (forall j :: 0 <= j < |live| && live[j] ==> exists r :: 0 <= r < |batch| && batch[r].ids[0] == j)
  }

  lemma SingleId(ids: seq<int>)
    requires |ids| == 1
    ensures IdsOf(ids) == {ids[0]}
  {
    assert ids[0] in IdsOf(ids);
  }

  lemma PlacedCell(cells: Cells, at: nat, batch: seq<Entry>, decoders: nat, i: nat)
    requires AllSound(cells, decoders) && FreeWindow(cells, at, |batch|) && i < |cells|
    requires forall r :: 0 <= r < |batch| ==> |batch[r].ids| == 1
    ensures Placed(cells, at, batch)[i] ==
            if at <= i < at + |batch| then Cell(batch[i - at].pos, {batch[i - at].ids[0]}) else cells[i]
  {
    if at <= i < at + |batch| {
      SingleId(batch[i - at].ids);
      assert cells[i].seqs == {};
    }
  }

  lemma PlacedSound(cells: Cells, at: nat, batch: seq<Entry>, decoders: nat)
    requires AllSound(cells, decoders) && FreeWindow(cells, at, |batch|)
    requires forall r :: 0 <= r < |batch| ==>
               |batch[r].ids| == 1 && 0 <= batch[r].ids[0] < decoders && 0 <= batch[r].pos < POS_MAX
    ensures AllSound(Placed(cells, at, batch), decoders)
  {
    forall i | 0 <= i < |cells| ensures Sound(Placed(cells, at, batch)[i], decoders) {
      PlacedCell(cells, at, batch, decoders, i);
    }
  }

  // a live decoder's text grows by one position
  lemma PlacedGrows(cells: Cells, at: nat, batch: seq<Entry>, live: seq<bool>, past: nat, j: nat)
    requires AllSound(cells, |live|) && FreeWindow(cells, at, |batch|) && OneEach(batch, live, past)
    requires j < |live| && live[j] && OwnsText(cells, j, past)
    ensures OwnsText(Placed(cells, at, batch), j, past + 1)
  {
    var b := Placed(cells, at, batch);
    forall i | 0 <= i < |cells|
      ensures b[i] == if at <= i < at + |batch| then Cell(past, {batch[i - at].ids[0]}) else cells[i]
    {
      PlacedCell(cells, at, batch, |live|, i);
    }
    hide Placed;
    var r :| 0 <= r < |batch| && batch[r].ids[0] == j;
    forall p | 0 <= p < past + 1 ensures HasPosition(b, j, p) {
      if p == past {
        assert Holds(b[at + r], j, p);
      } else {
        assert HasPosition(cells, j, p);
        var i :| 0 <= i < |cells| && Holds(cells[i], j, p);
        assert Holds(b[i], j, p);
      }
    }
  }

  // and leaves the text so far where it was
  lemma PlacedInherits(cells: Cells, at: nat, batch: seq<Entry>, live: seq<bool>, past: nat, j: nat)
    requires AllSound(cells, |live|) && FreeWindow(cells, at, |batch|) && OneEach(batch, live, past)
    requires j < |live| && OwnsText(cells, j, past)
    ensures Inherits(cells, j, Placed(cells, at, batch), j, past)
  {
    var b := Placed(cells, at, batch);
    forall i | 0 <= i < |cells|
      ensures (j in b[i].seqs && b[i].pos < past <==> j in cells[i].seqs) &&
              (j in cells[i].seqs ==> b[i].pos == cells[i].pos)
    {
      PlacedCell(cells, at, batch, |live|, i);
    }
  }

  // a finished decoder keeps its cells
  lemma PlacedKeeps(cells: Cells, at: nat, batch: seq<Entry>, live: seq<bool>, past: nat, j: nat)
    requires AllSound(cells, |live|) && FreeWindow(cells, at, |batch|) && OneEach(batch, live, past)
    requires j < |live| && !live[j]
    ensures TakesOver(cells, j, Placed(cells, at, batch), j)
  {
    forall i | 0 <= i < |cells| ensures
      var b := Placed(cells, at, batch);
      (j in b[i].seqs <==> j in cells[i].seqs) && (j in cells[i].seqs ==> b[i].pos == cells[i].pos)
    {
      PlacedCell(cells, at, batch, |live|, i);
    }
  }

  // the prompt, token t at position t
  ghost predicate PromptBatch(batch: seq<Entry>) {
    forall t :: 0 <= t < |batch| ==> batch[t] == Entry(t, [0])
  }

  lemma PlacedPrompt(cells: Cells, at: nat, batch: seq<Entry>)
    requires FreeWindow(cells, at, |batch|) && PromptBatch(batch)
    requires forall i :: 0 <= i < |cells| ==> cells[i] == Cell(-1, {})
    ensures OwnsText(Placed(cells, at, batch), 0, |batch|)
  {
    var b := Placed(cells, at, batch);
    forall i | 0 <= i < |cells|
      ensures b[i] == if at <= i < at + |batch| then Cell(i - at, {0}) else Cell(-1, {})
    {
      PlacedCell(cells, at, batch, 1, i);
    }
    forall p | 0 <= p < |batch| ensures HasPosition(b, 0, p) {
      assert Holds(b[at + p], 0, p);
    }
  }

  // ---- the mask ----

  // row r of the mask lets the token of id at position pos see exactly the cells of id up to pos
  ghost predicate RowShows(cells: Cells, n: nat, visible: array2<bool>, r: nat, id: int, pos: int)
    reads visible
    requires r < visible.Length0 && visible.Length1 == n <= |cells|
  {
    forall i :: 0 <= i < |cells| ==>
      (id in cells[i].seqs && cells[i].pos <= pos <==> i < n && visible[r, i])
  }

  // position p has a cell that row r sees
  ghost predicate SeesPosition(cells: Cells, visible: array2<bool>, r: nat, p: int)
    reads visible
    requires r < visible.Length0 && visible.Length1 <= |cells|
  {
    exists i :: 0 <= i < visible.Length1 && visible[r, i] && cells[i].pos == p
  }

  // In the row of a decoder's token at position pos, every position up to pos has exactly one
  // visible cell, the decoder's own, and nothing else is visible.
  lemma RowIsTheText(cells: Cells, visible: array2<bool>, r: nat, id: int, pos: nat, len: nat)
    requires r < visible.Length0 && visible.Length1 <= |cells| && pos < len
    requires RowShows(cells, visible.Length1, visible, r, id, pos) && OwnsText(cells, id, len)
    ensures forall i :: 0 <= i < visible.Length1 && visible[r, i] ==> id in cells[i].seqs && 0 <= cells[i].pos <= pos
    ensures forall p :: 0 <= p <= pos ==> SeesPosition(cells, visible, r, p)
    ensures forall i, k :: 0 <= i < k < visible.Length1 && visible[r, i] && visible[r, k] ==>
            cells[i].pos != cells[k].pos
  {
    forall p | 0 <= p <= pos ensures SeesPosition(cells, visible, r, p) {
      assert HasPosition(cells, id, p);
      var i :| 0 <= i < |cells| && Holds(cells[i], id, p);
      assert i < visible.Length1 && visible[r, i];
    }
  }

  // ---- what the tokens of one call see ----

  // the live decoders, the cells, the tokens, and their rows of the mask
  datatype Look = Look(live: seq<bool>, cells: Cells, batch: seq<Entry>, rows: seq<seq<bool>>)

  ghost function RowOf(visible: array2<bool>, r: nat): seq<bool>
    requires r < visible.Length0
    reads visible
  {
    seq(visible.Length1, i requires 0 <= i < visible.Length1 reads visible => visible[r, i])
  }

  ghost function Rows(visible: array2<bool>): seq<seq<bool>>
    reads visible
  {
    seq(visible.Length0, r requires 0 <= r < visible.Length0 reads visible => RowOf(visible, r))
  }

  // row lets a token see one cell for each position up to pos, owned by id, and nothing else
  ghost predicate SeesText(cells: Cells, row: seq<bool>, id: int, pos: int) {
    && |row| <= |cells|
    && (forall i :: 0 <= i < |row| && row[i] ==> id in cells[i].seqs && 0 <= cells[i].pos <= pos)
    && (forall p :: 0 <= p <= pos ==> SeesAt(cells, row, p))
    && (forall i, k :: 0 <= i < k < |row| && row[i] && row[k] ==> cells[i].pos != cells[k].pos)
  }

  ghost predicate SeesAt(cells: Cells, row: seq<bool>, p: int) {
    exists i :: 0 <= i < |row| && i < |cells| && row[i] && cells[i].pos == p
  }

  lemma RowIs(visible: array2<bool>, r: nat)
    requires r < visible.Length0
    ensures |Rows(visible)| == visible.Length0 && |Rows(visible)[r]| == visible.Length1
    ensures forall i :: 0 <= i < visible.Length1 ==> Rows(visible)[r][i] == visible[r, i]
  {
  }

  // each token sees its own text
  ghost predicate SeesOwnText(k: Look) {
    && |k.rows| == |k.batch|
    && forall r :: 0 <= r < |k.batch| ==>
         |k.batch[r].ids| == 1 && SeesText(k.cells, k.rows[r], k.batch[r].ids[0], k.batch[r].pos)
  }

  lemma RowSeesText(cells: Cells, visible: array2<bool>, r: nat, id: int, pos: nat, len: nat)
    requires r < visible.Length0 && visible.Length1 <= |cells| && pos < len
    requires RowShows(cells, visible.Length1, visible, r, id, pos) && OwnsText(cells, id, len)
    ensures SeesText(cells, Rows(visible)[r], id, pos)
  {
    RowIs(visible, r);
    RowIsTheText(cells, visible, r, id, pos, len);
    hide OwnsText, RowShows, Rows;
    var row := Rows(visible)[r];
    forall p | 0 <= p <= pos ensures SeesAt(cells, row, p) {
      assert SeesPosition(cells, visible, r, p);
      var i :| 0 <= i < visible.Length1 && visible[r, i] && cells[i].pos == p;
      assert row[i];
    }
  }

  // a call whose mask shows every token its decoder's cells
  lemma LookIsRight(live: seq<bool>, cells: Cells, visible: array2<bool>, batch: seq<Entry>, len: nat)
    requires visible.Length0 == |batch| && visible.Length1 <= |cells|
    requires forall r :: 0 <= r < |batch| ==>
               |batch[r].ids| == 1 && 0 <= batch[r].pos < len && OwnsText(cells, batch[r].ids[0], len) &&
               RowShows(cells, visible.Length1, visible, r, batch[r].ids[0], batch[r].pos)
    ensures SeesOwnText(Look(live, cells, batch, Rows(visible)))
  {
    hide OwnsText, RowShows, SeesText, RowOf;
    assert |Rows(visible)| == |batch|;
    forall r | 0 <= r < |batch| ensures SeesText(cells, Rows(visible)[r], batch[r].ids[0], batch[r].pos) {
      RowSeesText(cells, visible, r, batch[r].ids[0], batch[r].pos, len);
    }
  }

  // the decoders of one text segment
  class Decoding {
    const cache: Cache
    const pad: nat
    var live: seq<bool>
    // positions owned by every live decoder
    var past: nat

    ghost predicate Valid()
      reads this, cache, cache.cells
    {
      && cache.Valid() && pad > 0 && 0 < |live| <= MAX_DECODERS && past < POS_MAX
      && AllSound(cache.cells[..], |live|)
      && forall j :: 0 <= j < |live| && live[j] ==> OwnsText(cache.cells[..], j, past)
    }

    constructor (size: nat, decoders: nat, pad: nat)
      requires size > 0 && 0 < decoders <= MAX_DECODERS && pad > 0
      ensures Valid() && fresh(cache) && fresh(cache.cells) && |live| == decoders && past == 0
      ensures cache.cells.Length == size
    {
      var c := new Cache(size);
      cache := c;
      this.pad := pad;
      live := seq(decoders, _ => true);
      past := 0;
    }

    // finds room for the batch, sets how far attention looks, and masks what each token must not see
    method Decode(batch: seq<Entry>) returns (ok: bool, visible: array2<bool>)
      requires cache.Valid() && pad > 0
      requires forall r :: 0 <= r < |batch| ==> |batch[r].ids| == 1
      requires forall i :: 0 <= i < cache.cells.Length ==> (cache.cells[i].pos >= 0 <==> cache.cells[i].seqs != {})
      requires forall r :: 0 <= r < |batch| ==> batch[r].pos >= 0
      modifies cache, cache.cells
      ensures cache.Valid() && cache.cells == old(cache.cells)
      ensures ok <==> exists at :: FreeWindow(old(cache.cells[..]), at, |batch|)
      ensures !ok ==> cache.cells[..] == old(cache.cells[..])
      ensures ok ==>
                && FreeWindow(old(cache.cells[..]), cache.head, |batch|)
                && cache.cells[..] == Placed(old(cache.cells[..]), cache.head, batch)
                && fresh(visible) && visible.Length0 == |batch| && visible.Length1 == cache.n <= cache.cells.Length
                && forall r :: 0 <= r < |batch| ==>
                     RowShows(cache.cells[..], cache.n, visible, r, batch[r].ids[0], batch[r].pos)
    {
      ok := cache.FindSlot(batch);
      if !ok {
        visible := new bool[0, 0];
        return;
      }
      cache.SetN(pad);
      visible := cache.FillMask(batch);
      ghost var cells := cache.cells[..];
      ghost var was := old(cache.cells[..]);
      forall r | 0 <= r < |batch|
        ensures RowShows(cells, cache.n, visible, r, batch[r].ids[0], batch[r].pos)
      {
        forall i | 0 <= i < |cells|
          ensures batch[r].ids[0] in cells[i].seqs && cells[i].pos <= batch[r].pos <==> i < cache.n && visible[r, i]
        {
          UsedWhenOwned(was, cache.head, batch, i);
          if i < cache.n { assert visible[r, i] == Visible(cache.cells[i], batch[r]); }
        }
      }
    }

    // clears the cache, decodes the prompt and shares its cells among all decoders
    method Begin(tokens: nat) returns (ok: bool, visible: array2<bool>)
      requires Valid() && 0 < tokens < POS_MAX
      modifies this`live, this`past, cache, cache.cells
      ensures cache.cells == old(cache.cells) && |live| == old(|live|)
      ensures ok <==> tokens <= cache.cells.Length
      ensures ok ==> Valid() && past == tokens && forall j :: 0 <= j < |live| ==> live[j]
      // every decoder owns the same cells
      ensures ok ==> forall j :: 0 <= j < |live| ==> TakesOver(cache.cells[..], 0, cache.cells[..], j)
      // token t of the prompt sees tokens 0 to t
      ensures ok ==> visible.Length0 == tokens && visible.Length1 == cache.n <= cache.cells.Length &&
                     forall t :: 0 <= t < tokens ==> RowShows(cache.cells[..], cache.n, visible, t, 0, t)
    {
      var decoders := |live|;
      cache.Clear();
      var batch := seq(tokens, t => Entry(t, [0]));
      ghost var empty := cache.cells[..];
      assert tokens <= |empty| ==> FreeWindow(empty, 0, tokens);
      assert forall i :: 0 <= i < |empty| ==> empty[i] == Cell(-1, {});
      assert PromptBatch(batch) && AllSound(empty, 1);
      hide FreeWindow, Placed, RowShows, OwnsText, AllSound, TakesOver;
      ok, visible := Decode(batch);
      if !ok { return; }
      PlacedPrompt(empty, cache.head, batch);
      PlacedSound(empty, cache.head, batch, 1);
      ghost var prompt := cache.cells[..];
      forall t | 0 <= t < tokens ensures RowShows(prompt, cache.n, visible, t, 0, t) {
        assert RowShows(prompt, cache.n, visible, t, batch[t].ids[0], batch[t].pos);
      }
      cache.ShareFirst(decoders);
      PromptShared(prompt, cache.cells[..], decoders, tokens);
      forall t | 0 <= t < tokens ensures RowShows(cache.cells[..], cache.n, visible, t, 0, t) {
        RowStays(prompt, cache.cells[..], decoders, visible, t, t);
      }
      live := seq(decoders, _ => true);
      past := tokens;
    }

    // each live decoder continues the text of its chosen parent
    method Shuffle(parents: seq<nat>)
      requires Valid() && |parents| == |live|
      requires forall j :: 0 <= j < |live| ==> parents[j] < |live| && (live[j] ==> live[parents[j]])
      modifies cache, cache.cells
      ensures Valid() && cache.cells == old(cache.cells)
      ensures forall j :: 0 <= j < |live| ==>
                TakesOver(old(cache.cells[..]), if live[j] then parents[j] else j, cache.cells[..], j)
    {
      hide OwnsText, AllSound, TakesOver;
      ghost var was := cache.cells[..];
      cache.CopyOut(live, parents);
      cache.MoveIn(live);
      ghost var now := cache.cells[..];
      ShuffleTakesOver(was, now, live, parents);
      forall j | 0 <= j < |live| && live[j] ensures OwnsText(now, j, past) {
        OwnsTransfers(was, parents[j], now, j, past);
      }
    }

    // the next token of every live decoder
    method Extend() returns (ok: bool, visible: array2<bool>, batch: seq<Entry>)
      requires Valid() && past + 1 < POS_MAX
      modifies this`past, cache, cache.cells
      ensures cache.cells == old(cache.cells) && OneEach(batch, live, old(past))
      // the tokens need a free window, and nothing changes without one
      ensures ok <==> !NoWindow(old(cache.cells[..]), LiveCount(live))
      ensures !ok ==> cache.cells[..] == old(cache.cells[..])
      ensures ok ==> Valid() && past == old(past) + 1
      ensures ok ==> forall j :: 0 <= j < |live| && !live[j] ==> TakesOver(old(cache.cells[..]), j, cache.cells[..], j)
      ensures ok ==> forall j :: 0 <= j < |live| && live[j] ==>
                Inherits(old(cache.cells[..]), j, cache.cells[..], j, old(past))
      ensures ok ==> visible.Length0 == |batch| && visible.Length1 == cache.n <= cache.cells.Length &&
                     forall r :: 0 <= r < |batch| ==>
                       RowShows(cache.cells[..], cache.n, visible, r, batch[r].ids[0], old(past))
    {
      ghost var cells := cache.cells[..];
      SoundCells(cells, |live|);
      batch := NextBatch(live, past);
      BatchFacts(batch, live, past);
      hide FreeWindow, Placed, RowShows, OwnsText, AllSound, TakesOver, OneEach, Inherits;
      ok, visible := Decode(batch);
      if !ok { return; }
      PlacedSound(cells, cache.head, batch, |live|);
      forall j | 0 <= j < |live| && live[j]
        ensures OwnsText(cache.cells[..], j, past + 1) && Inherits(cells, j, cache.cells[..], j, past)
      {
        PlacedGrows(cells, cache.head, batch, live, past, j);
        PlacedInherits(cells, cache.head, batch, live, past, j);
      }
      forall j | 0 <= j < |live| && !live[j] ensures TakesOver(cells, j, cache.cells[..], j) {
        PlacedKeeps(cells, cache.head, batch, live, past, j);
      }
      past := past + 1;
    }

    lemma PromptLook(tokens: nat, visible: array2<bool>) returns (k: Look)
      requires Valid() && past == tokens > 0 && live[0]
      requires visible.Length0 == tokens && visible.Length1 == cache.n <= cache.cells.Length
      requires forall t :: 0 <= t < tokens ==> RowShows(cache.cells[..], cache.n, visible, t, 0, t)
      ensures SeesOwnText(k) && InTurn(k, tokens, 0) && k.live == live && k.cells == cache.cells[..]
    {
      var batch := seq(tokens, t => Entry(t, [0]));
      k := Look(live, cache.cells[..], batch, Rows(visible));
      hide OwnsText, RowShows, Rows, SeesOwnText, AllSound;
      LookIsRight(live, cache.cells[..], visible, batch, tokens);
    }

    lemma NextLook(visible: array2<bool>, batch: seq<Entry>, tokens: nat, i: nat) returns (k: Look)
      requires Valid() && i > 0 && past == tokens + i && OneEach(batch, live, past - 1)
      requires visible.Length0 == |batch| && visible.Length1 == cache.n <= cache.cells.Length
      requires forall r :: 0 <= r < |batch| ==>
                 RowShows(cache.cells[..], cache.n, visible, r, batch[r].ids[0], past - 1)
      ensures SeesOwnText(k) && InTurn(k, tokens, i) && k.live == live && k.cells == cache.cells[..]
    {
      k := Look(live, cache.cells[..], batch, Rows(visible));
      hide OwnsText, RowShows, Rows, SeesOwnText, AllSound;
      LookIsRight(live, cache.cells[..], visible, batch, past);
    }

    // decoders that have completed or failed stay so
    method Finish(done: seq<bool>)
      requires Valid() && |done| == |live|
      modifies this`live
      ensures Valid() && live == Unfinished(old(live), done)
    {
      live := Unfinished(live, done);
    }

    // beam search moves the decoders to their parents, greedy sampling leaves them where they are
    method ChooseParents(step: Step)
      requires Valid()
      modifies cache, cache.cells
      ensures Valid() && cache.cells == old(cache.cells)
      ensures forall j :: 0 <= j < |live| && live[j] ==>
                TakesOver(old(cache.cells[..]), ParentOf(step, live, j), cache.cells[..], j)
    {
      hide OwnsText, AllSound, TakesOver;
      ghost var was := cache.cells[..];
      if Eligible(live, step.parents) {
        Shuffle(step.parents);
      } else {
        forall j | 0 <= j < |live| ensures TakesOver(was, j, cache.cells[..], j) { TakesOverSame(was, j); }
      }
    }

    // One step: decoders take over from their parents, finish, and get a token each; more is false
    // when all have finished.
    method TakeStep(step: Step, ghost tokens: nat, ghost i: nat) returns (ok: bool, more: bool, ghost look: Look)
      requires Valid() && past == tokens + i && past + 1 < POS_MAX && |step.done| == |live|
      modifies this`live, this`past, cache, cache.cells
      ensures cache.cells == old(cache.cells) && live == Unfinished(old(live), step.done)
      ensures ok ==> Valid()
      ensures ok && !more ==> past == old(past) && forall j :: 0 <= j < |live| ==> !live[j]
      ensures ok && more ==> past == old(past) + 1 && SeesOwnText(look) && InTurn(look, tokens, i + 1) &&
                             look.live == live && look.cells == cache.cells[..] &&
                             AllInherit(old(cache.cells[..]), old(live), step, look, old(past))
      ensures !ok ==> NoWindow(cache.cells[..], LiveCount(live))
    {
      hide SeesOwnText, InTurn, OwnsText, AllSound, RowShows, OneEach, NoWindow, TakesOver, Inherits,
           AllInherit, ParentOf;
      look := Look([], [], [], []);
      ghost var was, before := cache.cells[..], live;
      ChooseParents(step);
      ghost var shuffled := cache.cells[..];
      Finish(step.done);
      ok, more := true, exists j :: 0 <= j < |live| && live[j];
      if !more { return; }
      var visible, batch;
      ok, visible, batch := Extend();
      if !ok { return; }
      look := NextLook(visible, batch, tokens, i + 1);
      StepInherits(was, shuffled, before, step, look, past - 1);
    }

    // A whole segment: whatever parents are chosen and whenever decoders finish, every live decoder
    // owns exactly one cell for each position of the prompt and of its tokens.
    method Run(tokens: nat, steps: seq<Step>) returns (ok: bool, ghost looks: seq<Look>)
      requires Valid() && 0 < tokens && tokens + |steps| + 1 < POS_MAX
      requires forall i :: 0 <= i < |steps| ==> |steps[i].done| == |live|
      modifies this`live, this`past, cache, cache.cells
      ensures ok ==> Valid() && tokens <= past <= tokens + |steps|
      // unless all decoders have finished, one position has been added for each step
      ensures ok && (exists j :: 0 <= j < |live| && live[j]) ==> past == tokens + |steps|
      // it stops early only for a prompt larger than the cache, or without a window for the next tokens
      ensures !ok ==> tokens > cache.cells.Length || NoWindow(cache.cells[..], LiveCount(live))
      // the calls take the prompt and then one token for each decoder that has not finished, and each
      // token sees exactly its own text; the last call leaves the cache as it is
      ensures |live| == old(|live|) && |looks| <= |steps| + 1 && AllRight(looks, |live|, tokens, steps)
      ensures ok ==> past == tokens + |looks| - 1
      ensures ok && (exists j :: 0 <= j < |live| && live[j]) ==>
                looks[|steps|].live == live && looks[|steps|].cells == cache.cells[..]
    {
      hide SeesOwnText, InTurn, OwnsText, AllSound, RowShows, OneEach, NoWindow, TakesOver, Unfinished,
           AllRight, AllInherit;
      looks := [];
      NoneRight(|live|, tokens, steps);
      var visible;
      ok, visible := Begin(tokens);
      if !ok { return; }
      ghost var look := PromptLook(tokens, visible);
      looks := NextRight([], look, |live|, tokens, steps);
      var i := 0;
      while i < |steps|
        invariant 0 <= i <= |steps| && Valid() && cache.cells == old(cache.cells) && |live| == old(|live|)
        invariant past == tokens + i && |looks| == i + 1
        invariant live == LiveAfter(|live|, steps, i) == looks[i].live && looks[i].cells == cache.cells[..]
        invariant AllRight(looks, |live|, tokens, steps)
      {
        hide Valid;
        var more;
        ok, more, look := TakeStep(steps[i], tokens, i);
        if !ok { assert NoWindow(cache.cells[..], LiveCount(live)); return; }
        if !more { return; }
        i := i + 1;
        looks := NextRight(looks, look, |live|, tokens, steps);
      }
    }
  }

  // call 0 takes the prompt, call k one token of each live decoder at the k-th position behind it
  ghost predicate InTurn(k: Look, tokens: nat, call: nat) {
    if call == 0 then |k.batch| == tokens && forall t :: 0 <= t < tokens ==> k.batch[t] == Entry(t, [0])
    else OneEach(k.batch, k.live, tokens + call - 1)
  }

  function Unfinished(live: seq<bool>, done: seq<bool>): (r: seq<bool>)
    requires |done| == |live|
    ensures |r| == |live|
  {
    seq(|live|, j requires 0 <= j < |live| => live[j] && !done[j])
  }

  // the decoders that have not finished before call k + 1
  function LiveAfter(decoders: nat, steps: seq<Step>, k: nat): (r: seq<bool>)
    requires k <= |steps| && forall i :: 0 <= i < |steps| ==> |steps[i].done| == decoders
    ensures |r| == decoders
  {
    if k == 0 then seq(decoders, _ => true) else Unfinished(LiveAfter(decoders, steps, k - 1), steps[k - 1].done)
  }

  // who decoder j continues: the parent chosen for it, or itself
  function ParentOf(step: Step, live: seq<bool>, j: nat): nat
    requires j < |live|
  {
    if Eligible(live, step.parents) then step.parents[j] else j
  }

  // Each decoder that goes on owns, below its new position, exactly the cells of the one that it continues.
  ghost predicate AllInherit(cells: Cells, live: seq<bool>, step: Step, k: Look, past: nat) {
    |k.live| == |live| &&
    forall j :: 0 <= j < |live| && k.live[j] ==> live[j] && Inherits(cells, ParentOf(step, live, j), k.cells, j, past)
  }

  lemma StepInherits(was: Cells, shuffled: Cells, live: seq<bool>, step: Step, k: Look, past: nat)
    requires |k.live| == |live|
    requires forall j :: 0 <= j < |live| && live[j] ==> TakesOver(was, ParentOf(step, live, j), shuffled, j)
    requires forall j :: 0 <= j < |live| && k.live[j] ==> live[j] && Inherits(shuffled, j, k.cells, j, past)
    ensures AllInherit(was, live, step, k, past)
  {
    hide TakesOver, Inherits, Eligible;
    forall j | 0 <= j < |live| && k.live[j] ensures Inherits(was, ParentOf(step, live, j), k.cells, j, past) {
      InheritsAfter(was, ParentOf(step, live, j), shuffled, k.cells, j, past);
    }
  }

  // call 0 shares the prompt's cells, each later call continues the one before it
  ghost predicate Follows(looks: seq<Look>, k: nat, tokens: nat, steps: seq<Step>)
    requires k < |looks| <= |steps| + 1
  {
    if k == 0 then
      forall j :: 0 <= j < |looks[0].live| ==> TakesOver(looks[0].cells, 0, looks[0].cells, j)
    else AllInherit(looks[k - 1].cells, looks[k - 1].live, steps[k - 1], looks[k], tokens + k - 1)
  }

  // the calls so far
  ghost predicate AllRight(looks: seq<Look>, decoders: nat, tokens: nat, steps: seq<Step>)
    requires |looks| <= |steps| + 1 && forall i :: 0 <= i < |steps| ==> |steps[i].done| == decoders
  {
    forall k :: 0 <= k < |looks| ==>
      && SeesOwnText(looks[k]) && InTurn(looks[k], tokens, k) && looks[k].live == LiveAfter(decoders, steps, k)
      && Follows(looks, k, tokens, steps)
  }

  lemma NoneRight(decoders: nat, tokens: nat, steps: seq<Step>)
    requires forall i :: 0 <= i < |steps| ==> |steps[i].done| == decoders
    ensures AllRight([], decoders, tokens, steps)
  {
  }

  lemma NextRight(looks: seq<Look>, look: Look, decoders: nat, tokens: nat, steps: seq<Step>) returns (r: seq<Look>)
    requires |looks| <= |steps| && forall i :: 0 <= i < |steps| ==> |steps[i].done| == decoders
    requires AllRight(looks, decoders, tokens, steps)
    requires SeesOwnText(look) && InTurn(look, tokens, |looks|) && look.live == LiveAfter(decoders, steps, |looks|)
    requires Follows(looks + [look], |looks|, tokens, steps)
    ensures r == looks + [look] && AllRight(r, decoders, tokens, steps)
  {
    r := looks + [look];
    hide SeesOwnText, InTurn, LiveAfter, AllInherit, TakesOver;
    forall k | 0 <= k < |looks| ensures Follows(r, k, tokens, steps) {
      assert Follows(looks, k, tokens, steps);
    }
  }

  // beam search chooses a live parent for each live decoder; greedy sampling chooses none
  datatype Step = Step(parents: seq<nat>, done: seq<bool>)

  predicate Eligible(live: seq<bool>, parents: seq<nat>) {
    |parents| == |live| && forall j :: 0 <= j < |live| ==> parents[j] < |live| && (live[j] ==> live[parents[j]])
  }

  function LiveCount(live: seq<bool>): nat {
    if live == [] then 0 else LiveCount(live[..|live| - 1]) + (if live[|live| - 1] then 1 else 0)
  }

  ghost predicate NoWindow(cells: Cells, n: nat) { forall at :: !FreeWindow(cells, at, n) }

  method NextBatch(live: seq<bool>, past: nat) returns (batch: seq<Entry>)
    ensures OneEach(batch, live, past) && |batch| == LiveCount(live)
  {
    hide OneEach, LiveCount;
    batch := [];
    NoneYet(live, past);
    for j := 0 to |live|
      invariant OneEach(batch, live[..j], past) && |batch| == LiveCount(live[..j])
    {
      CountNext(live, j);
      OneMore(batch, live, past, j);
      if live[j] { batch := batch + [Entry(past, [j])]; }
    }
    assert live[..|live|] == live;
  }

  lemma NoneYet(live: seq<bool>, past: nat)
    ensures OneEach([], live[..0], past) && LiveCount(live[..0]) == 0
  {
  }

  lemma CountNext(live: seq<bool>, j: nat)
    requires j < |live|
    ensures LiveCount(live[..j + 1]) == LiveCount(live[..j]) + if live[j] then 1 else 0
  {
    assert live[..j + 1][..j] == live[..j];
  }

  lemma OneMore(batch: seq<Entry>, live: seq<bool>, past: nat, j: nat)
    requires j < |live| && OneEach(batch, live[..j], past)
    ensures OneEach(if live[j] then batch + [Entry(past, [j])] else batch, live[..j + 1], past)
  {
    assert live[..j + 1] == live[..j] + [live[j]];
    if live[j] { OneTrue(batch, live[..j], past); } else { OneFalse(batch, live[..j], past); }
  }

  lemma OneFalse(batch: seq<Entry>, live: seq<bool>, past: nat)
    requires OneEach(batch, live, past)
    ensures OneEach(batch, live + [false], past)
  {
  }

  lemma OneTrue(batch: seq<Entry>, live: seq<bool>, past: nat)
    requires OneEach(batch, live, past)
    ensures OneEach(batch + [Entry(past, [|live|])], live + [true], past)
  {
    var next := batch + [Entry(past, [|live|])];
    assert next[|batch|].ids[0] == |live|;
    forall k | 0 <= k < |live| && live[k] ensures exists r :: 0 <= r < |next| && next[r].ids[0] == k {
      var r :| 0 <= r < |batch| && batch[r].ids[0] == k;
      assert next[r] == batch[r];
    }
  }

  lemma BatchFacts(batch: seq<Entry>, live: seq<bool>, past: nat)
    requires OneEach(batch, live, past)
    ensures forall r :: 0 <= r < |batch| ==>
              batch[r].pos == past && |batch[r].ids| == 1 && 0 <= batch[r].ids[0] < |live|
  {
  }

  lemma SoundCells(cells: Cells, decoders: nat)
    requires AllSound(cells, decoders)
    ensures forall i :: 0 <= i < |cells| ==> (cells[i].pos >= 0 <==> cells[i].seqs != {})
  {
  }

  // the prompt's cells, once shared
  lemma PromptShared(prompt: Cells, shared: Cells, decoders: nat, tokens: nat)
    requires |prompt| == |shared| && 0 < decoders && AllSound(prompt, 1) && OwnsText(prompt, 0, tokens)
    requires forall i :: 0 <= i < |shared| ==> shared[i] == SharedBy(prompt[i], decoders)
    ensures AllSound(shared, decoders) && forall j :: 0 <= j < decoders ==> OwnsText(shared, j, tokens)
    ensures forall j :: 0 <= j < decoders ==> TakesOver(prompt, 0, shared, j) && TakesOver(shared, 0, shared, j)
  {
    forall i | 0 <= i < |shared|
      ensures Sound(shared[i], decoders) && shared[i].pos == prompt[i].pos
      ensures forall j :: 0 <= j < decoders ==> (j in shared[i].seqs <==> 0 in prompt[i].seqs)
    {
      SharedByIs(prompt[i], decoders);
    }
    hide SharedBy;
    forall j | 0 <= j < decoders ensures OwnsText(shared, j, tokens) && TakesOver(prompt, 0, shared, j) {
      assert TakesOver(prompt, 0, shared, j);
      OwnsTransfers(prompt, 0, shared, j, tokens);
    }
  }

  lemma {:induction false} SharedByIs(c: Cell, j: nat)
    requires Sound(c, 1) && j > 0
    ensures var r := SharedBy(c, j);
            r.pos == c.pos && Sound(r, j) && forall id :: 0 <= id < j ==> (id in r.seqs <==> 0 in c.seqs)
  {
    if j > 1 { SharedByIs(c, j - 1); }
  }

  // sharing does not change what the prompt's tokens see
  lemma RowStays(prompt: Cells, shared: Cells, decoders: nat, visible: array2<bool>, t: nat, pos: int)
    requires t < visible.Length0 && visible.Length1 <= |prompt| == |shared| && 0 < decoders && AllSound(prompt, 1)
    requires forall i :: 0 <= i < |shared| ==> shared[i] == SharedBy(prompt[i], decoders)
    requires RowShows(prompt, visible.Length1, visible, t, 0, pos)
    ensures RowShows(shared, visible.Length1, visible, t, 0, pos)
  {
    forall i | 0 <= i < |shared|
      ensures 0 in shared[i].seqs && shared[i].pos <= pos <==> i < visible.Length1 && visible[t, i]
    {
      SharedByIs(prompt[i], decoders);
    }
  }

  lemma UsedWhenOwned(cells: Cells, at: nat, batch: seq<Entry>, i: nat)
    requires FreeWindow(cells, at, |batch|) && i < |cells|
    requires forall k :: 0 <= k < |cells| ==> (cells[k].pos >= 0 <==> cells[k].seqs != {})
    requires forall r :: 0 <= r < |batch| ==> batch[r].pos >= 0
    ensures var c := Placed(cells, at, batch)[i]; c.seqs != {} ==> Used(c)
  {
  }

  // The shuffle gives each live decoder exactly the cells that its parent owned, and leaves finished
  // decoders theirs.
  lemma ShuffleTakesOver(was: Cells, now: Cells, live: seq<bool>, parents: seq<nat>)
    requires |was| == |now| && AllSound(was, |live|) && |live| == |parents| <= MAX_DECODERS
    requires forall k :: 0 <= k < |parents| ==> parents[k] < |live|
    requires forall i :: 0 <= i < |now| ==> now[i] == Shuffled(was[i], live, parents)
    ensures AllSound(now, |live|)
    ensures forall j :: 0 <= j < |live| ==> TakesOver(was, if live[j] then parents[j] else j, now, j)
  {
    forall i | 0 <= i < |now|
      ensures Sound(now[i], |live|) && now[i].pos == (if now[i].seqs == {} then -1 else was[i].pos)
      ensures forall j :: 0 <= j < |live| ==>
                (j in now[i].seqs <==> if live[j] then parents[j] in was[i].seqs else j in was[i].seqs)
    {
      ParallelAssignment(was[i], live, parents);
    }
    hide Shuffled;
    forall j | 0 <= j < |live| ensures TakesOver(was, if live[j] then parents[j] else j, now, j) {
      forall i | 0 <= i < |now|
        ensures var id := if live[j] then parents[j] else j;
                (j in now[i].seqs <==> id in was[i].seqs) && (id in was[i].seqs ==> now[i].pos == was[i].pos)
      {
      }
    }
  }
}
