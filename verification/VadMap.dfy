// Cutting the speech out of the audio, and mapping times of the cut audio back.
module VadMap {
  import opened Arith
  import opened VadSegments

  // 0.1 s between segments
  const SILENCE := 1600

  // both in centiseconds
  datatype Mapping = Mapping(processed: nat, original: nat)

  function Min(a: int, b: int): int { if a < b then a else b }

  function FromCs(cs: nat): nat { cs * 160 }

  predicate InOrder(segs: seq<Segment>) {
    && (forall k :: 0 <= k < |segs| ==> segs[k].start <= segs[k].end)
    && (forall j, k :: 0 <= j < k < |segs| ==> segs[j].end <= segs[k].start)
  }

  // ---- what is cut out ----

  function FirstSample(s: Segment, n: nat): int { Min(FromCs(s.start), n - 1) }

  function LastSample(s: Segment, n: nat): int { Min(FromCs(s.end), n - 1) }

  // all but the last segment run on into the silence that follows
  function CutEnd(s: Segment, last: bool, n: nat, overlap: nat): int {
    if last then LastSample(s, n) else Min(LastSample(s, n) + overlap, n - 1)
  }

  function Zeros(): seq<real> { seq(SILENCE, _ => 0.0) }

  // the cut audio, from segment i on
  function Extracted(segs: seq<Segment>, i: nat, samples: seq<real>, overlap: nat): seq<real>
    requires InOrder(segs) && i <= |segs| && samples != []
    decreases |segs| - i
  {
    if i == |segs| then []
    else
      var from, to := FirstSample(segs[i], |samples|), CutEnd(segs[i], i + 1 == |segs|, |samples|, overlap);
      (if to > from then samples[from..to] + (if i + 1 < |segs| then Zeros() else []) else []) +
        Extracted(segs, i + 1, samples, overlap)
  }

  // how much room was reserved for segments i on, silences included
  function Needed(segs: seq<Segment>, i: nat, n: nat, overlap: nat): int
    requires i <= |segs|
    decreases |segs| - i
  {
    if i == |segs| then 0
    else
      Min(FromCs(segs[i].end) + (if i + 1 < |segs| then overlap else 0), n - 1) - FromCs(segs[i].start) +
        (if i + 1 < |segs| then SILENCE else 0) + Needed(segs, i + 1, n, overlap)
  }

  // every segment starts inside the audio and is not empty
  predicate AllInside(segs: seq<Segment>, n: nat) {
    forall k :: 0 <= k < |segs| ==> FromCs(segs[k].start) < LastSample(segs[k], n)
  }

  // every segment starts at most 50 ms behind the audio
  predicate AllNear(segs: seq<Segment>, n: nat) {
    forall k :: 0 <= k < |segs| ==> FromCs(segs[k].start) < n + 799
  }

  // as much is copied as was reserved: silence follows only a segment that is not empty, and the
  // room reserved for a segment behind the audio is negative
  predicate Fills(s: Segment, last: bool, n: nat, overlap: nat) {
    if last then FromCs(s.start) <= CutEnd(s, last, n, overlap) else FromCs(s.start) < CutEnd(s, last, n, overlap)
  }

  predicate AllFill(segs: seq<Segment>, i: nat, n: nat, overlap: nat) {
    forall k :: i <= k < |segs| ==> Fills(segs[k], k + 1 == |segs|, n, overlap)
  }

  // how much of the room reserved for segments i on is not filled
  function Lack(segs: seq<Segment>, i: nat, samples: seq<real>, overlap: nat): int
    requires InOrder(segs) && i <= |segs| && samples != []
  {
    Needed(segs, i, |samples|, overlap) - |Extracted(segs, i, samples, overlap)|
  }

  // The copied samples fill the reserved room exactly when every segment does.
  lemma {:induction false} FillsExactlyWhen(segs: seq<Segment>, i: nat, samples: seq<real>, overlap: nat)
    requires InOrder(segs) && i <= |segs| && samples != [] && AllNear(segs, |samples|)
    ensures Lack(segs, i, samples, overlap) == 0 <==> AllFill(segs, i, |samples|, overlap)
    ensures Lack(segs, i, samples, overlap) >= -799
    decreases |segs| - i
  {
    if i < |segs| {
      LackStep(segs, i, samples, overlap);
      AllFillFrom(segs, i, |samples|, overlap);
      hide Lack, AllFill, Fills, InOrder, AllNear;
      FillsExactlyWhen(segs, i + 1, samples, overlap);
      if i + 1 == |segs| { NoLack(segs, samples, overlap); }
    }
  }

  // every segment but the last fills its room, and the last starts behind where it is cut
  predicate Overruns(segs: seq<Segment>, i: nat, n: nat, overlap: nat) {
    && i < |segs| && !Fills(segs[|segs| - 1], true, n, overlap)
    && forall k :: i <= k < |segs| - 1 ==> Fills(segs[k], false, n, overlap)
  }

  lemma OverrunsStep(segs: seq<Segment>, i: nat, n: nat, overlap: nat)
    requires i < |segs|
    ensures Overruns(segs, i, n, overlap) <==>
            if i + 1 == |segs| then !Fills(segs[i], true, n, overlap)
            else Fills(segs[i], false, n, overlap) && Overruns(segs, i + 1, n, overlap)
  {
  }

  lemma NoneOverruns(segs: seq<Segment>, n: nat, overlap: nat)
    ensures !Overruns(segs, |segs|, n, overlap)
  {
  }

  // More is written than there is room for exactly in that case.
  lemma {:induction false} OverrunsExactlyWhen(segs: seq<Segment>, i: nat, samples: seq<real>, overlap: nat)
    requires InOrder(segs) && i <= |segs| && samples != [] && AllNear(segs, |samples|)
    ensures Lack(segs, i, samples, overlap) < 0 <==> Overruns(segs, i, |samples|, overlap)
    decreases |segs| - i
  {
    hide Lack, Fills, InOrder, AllNear, AllFill, Overruns, Needed, Extracted;
    NoLack(segs, samples, overlap);
    NoneOverruns(segs, |samples|, overlap);
    if i < |segs| {
      LackStep(segs, i, samples, overlap);
      OverrunsStep(segs, i, |samples|, overlap);
      FillsExactlyWhen(segs, i + 1, samples, overlap);
      OverrunsExactlyWhen(segs, i + 1, samples, overlap);
    }
  }

  lemma NoLack(segs: seq<Segment>, samples: seq<real>, overlap: nat)
    requires InOrder(segs) && samples != []
    ensures Lack(segs, |segs|, samples, overlap) == 0
  {
  }

  // One segment fills its room, or is the last and has a negative one, or leaves more than half of the
  // silence behind it.
  lemma LackStep(segs: seq<Segment>, i: nat, samples: seq<real>, overlap: nat)
    requires InOrder(segs) && i < |segs| && samples != [] && AllNear(segs, |samples|)
    ensures var more := Lack(segs, i, samples, overlap) - Lack(segs, i + 1, samples, overlap);
            if Fills(segs[i], i + 1 == |segs|, |samples|, overlap) then more == 0
            else if i + 1 == |segs| then -799 <= more < 0
            else more > 799
  {
    assert FromCs(segs[i].start) < |samples| + 799 && segs[i].start <= segs[i].end;
    hide InOrder, AllNear;
  }

  lemma AllFillFrom(segs: seq<Segment>, i: nat, n: nat, overlap: nat)
    requires i < |segs|
    ensures AllFill(segs, i, n, overlap) <==>
            Fills(segs[i], i + 1 == |segs|, n, overlap) && AllFill(segs, i + 1, n, overlap)
  {
  }

  lemma InsideFills(segs: seq<Segment>, n: nat, overlap: nat)
    requires n > 0 && AllInside(segs, n)
    ensures AllNear(segs, n) && AllFill(segs, 0, n, overlap)
  {
    forall k | 0 <= k < |segs| ensures FromCs(segs[k].start) < n - 1 && Fills(segs[k], k + 1 == |segs|, n, overlap) {
      assert FromCs(segs[k].start) < LastSample(segs[k], n);
    }
  }

  // Segments of the detector are inside when the least speech is longer than a window: the audio is
  // only padded to a whole window.
  lemma DetectedAreInside(speeches: seq<Speech>, segs: seq<Segment>, n: nat, window: nat, audio: int, least: int)
    requires Ordered(speeches, 0, audio) && audio < n + window && least >= window + 160
    requires forall k :: 0 <= k < |speeches| ==> speeches[k].end - speeches[k].start >= least
    requires |segs| == |speeches|
    requires forall k :: 0 <= k < |segs| ==> segs[k] == Segment(ToCs(speeches[k].start), ToCs(speeches[k].end))
    ensures AllInside(segs, n)
  {
    forall k | 0 <= k < |segs| ensures FromCs(segs[k].start) < LastSample(segs[k], n) {
      RoundedNear(speeches[k].start);
      RoundedNear(speeches[k].end);
    }
  }

  lemma RoundedNear(x: nat)
    ensures x - 79 <= FromCs(ToCs(x)) <= x + 80
  {
  }

  // ---- the time table ----

  predicate Follows(a: Mapping, b: Mapping) { a.processed <= b.processed && a.original <= b.original }

  // in order in both times
  predicate Chain(t: seq<Mapping>) { forall j, k :: 0 <= j < k < |t| ==> Follows(t[j], t[k]) }

  lemma ChainPush(t: seq<Mapping>, m: Mapping)
    requires Chain(t) && (t != [] ==> Follows(t[|t| - 1], m))
    ensures Chain(t + [m])
  {
    forall j | 0 <= j < |t| ensures Follows(t[j], m) {
      if j < |t| - 1 { assert Follows(t[j], t[|t| - 1]); }
    }
  }

  lemma ChainAt(t: seq<Mapping>, j: nat, k: nat)
    requires Chain(t) && j < |t| && k < |t|
    ensures j < k ==> t[j].processed <= t[k].processed && t[j].original <= t[k].original
  {
    assert j < k ==> Follows(t[j], t[k]);
  }

  // a table that can be searched: processed times strictly increase, original times never decrease
  predicate Table(t: seq<Mapping>) {
    forall j, k :: 0 <= j < k < |t| ==> t[j].processed < t[k].processed && t[j].original <= t[k].original
  }

  predicate SortedByProcessed(t: seq<Mapping>) {
    forall j, k :: 0 <= j < k < |t| ==> t[j].processed <= t[k].processed
  }

  predicate HasTime(t: seq<Mapping>, processed: nat) { exists k :: 0 <= k < |t| && t[k].processed == processed }

  // of neighbours with the same processed time only the first is kept
  function Unique(t: seq<Mapping>): (r: seq<Mapping>)
    ensures forall k :: 0 <= k < |r| ==> r[k] in t
    ensures forall k :: 0 <= k < |t| ==> HasTime(r, t[k].processed)
    ensures t != [] ==> r != [] && r[|r| - 1].processed == t[|t| - 1].processed
  {
    if |t| < 2 then t
    else
      var r := Unique(t[..|t| - 1]);
      assert forall k :: 0 <= k < |t| - 1 ==> t[..|t| - 1][k] == t[k];
      if t[|t| - 2].processed == t[|t| - 1].processed then r
      else
        var all := r + [t[|t| - 1]];
        assert all[|all| - 1] == t[|t| - 1] && forall k :: 0 <= k < |r| ==> all[k] == r[k];
        all
  }

  lemma {:induction false} UniqueIncreases(t: seq<Mapping>)
    requires SortedByProcessed(t)
    ensures forall j, k :: 0 <= j < k < |Unique(t)| ==> Unique(t)[j].processed < Unique(t)[k].processed
  {
    hide HasTime;
    if |t| >= 2 {
      var q := t[..|t| - 1];
      UniqueIncreases(q);
      var r := Unique(q);
      forall j | 0 <= j < |r| ensures r[j].processed <= q[|q| - 1].processed {
        assert r[j] in q;
      }
    }
  }

  // However entries with the same processed time are arranged, the result is a table.
  lemma AnySortGivesTable(chain: seq<Mapping>, sorted: seq<Mapping>)
    requires Chain(chain) && SortedByProcessed(sorted) && multiset(sorted) == multiset(chain)
    ensures Table(Unique(sorted))
  {
    UniqueIncreases(sorted);
    hide Chain, SortedByProcessed, HasTime;
    var r := Unique(sorted);
    forall j, k | 0 <= j < k < |r| ensures r[j].original <= r[k].original {
      SameMembers(chain, sorted, r[j]);
      SameMembers(chain, sorted, r[k]);
      ChainOrders(chain, r[j], r[k]);
    }
  }

  lemma SameMembers(chain: seq<Mapping>, sorted: seq<Mapping>, m: Mapping)
    requires multiset(sorted) == multiset(chain) && m in sorted
    ensures m in chain
  {
    assert m in multiset(chain);
  }

  lemma ChainOrders(chain: seq<Mapping>, a: Mapping, b: Mapping)
    requires Chain(chain) && a in chain && b in chain && a.processed < b.processed
    ensures a.original <= b.original
  {
    var j :| 0 <= j < |chain| && chain[j] == a;
    var k :| 0 <= k < |chain| && chain[k] == b;
    ChainAt(chain, j, k);
    ChainAt(chain, k, j);
  }

  method SortAndDeduplicate(chain: seq<Mapping>) returns (table: seq<Mapping>)
    requires Chain(chain)
    ensures Table(table) && (chain != [] ==> table != [])
    ensures forall m :: m in table ==> m in chain
    ensures forall m :: m in chain ==> HasTime(table, m.processed)
  {
    forall j, k | 0 <= j < k < |chain| ensures chain[j].processed <= chain[k].processed {
      ChainAt(chain, j, k);
    }
    assert SortedByProcessed(chain) && multiset(chain) == multiset(chain);
    // the library may sort in any way
    var sorted :| SortedByProcessed(sorted) && multiset(sorted) == multiset(chain);
    AnySortGivesTable(chain, sorted);
    table := DropRepeats(sorted);
    forall m | m in table ensures m in chain {
      assert m in sorted;
      assert m in multiset(chain);
    }
    forall m | m in chain ensures HasTime(table, m.processed) {
      assert m in multiset(sorted);
      var k :| 0 <= k < |sorted| && sorted[k] == m;
    }
    if chain != [] {
      assert chain[0] in multiset(sorted);
    }
  }

  method DropRepeats(t: seq<Mapping>) returns (r: seq<Mapping>)
    ensures r == Unique(t)
  {
    if t == [] { return []; }
    r := [t[0]];
    assert t[..1] == [t[0]];
    for i := 1 to |t|
      invariant r == Unique(t[..i])
    {
      assert t[..i + 1][..i] == t[..i];
      if t[i].processed != t[i - 1].processed { r := r + [t[i]]; }
    }
    assert t[..|t|] == t;
  }

  // ---- cutting ----

  // one segment's entries: its boundaries, and those of the silence behind it
  function Entries(segs: seq<Segment>, i: nat, n: nat, overlap: nat, offset: nat): seq<Mapping>
    requires i < |segs| && InOrder(segs) && n > 0
  {
    var s := segs[i];
    var full := LastSample(s, n) - FirstSample(s, n);
    var len := CutEnd(s, i + 1 == |segs|, n, overlap) - FirstSample(s, n);
    [Mapping(ToCs(offset), s.start), Mapping(ToCs(offset + full), s.end)] +
      if i + 1 == |segs| then []
      else [Mapping(ToCs(offset + len), s.end), Mapping(ToCs(offset + len + SILENCE), segs[i + 1].start)]
  }

  // all entries from segment i on, when its copy starts at offset
  function EntriesFrom(segs: seq<Segment>, i: nat, n: nat, overlap: nat, offset: nat): seq<Mapping>
    requires i <= |segs| && InOrder(segs) && n > 0
    decreases |segs| - i
  {
    if i == |segs| then []
    else
      var len := CutEnd(segs[i], i + 1 == |segs|, n, overlap) - FirstSample(segs[i], n);
      if len > 0
      then Entries(segs, i, n, overlap, offset) +
           EntriesFrom(segs, i + 1, n, overlap, offset + len + if i + 1 < |segs| then SILENCE else 0)
      else EntriesFrom(segs, i + 1, n, overlap, offset)
  }

  lemma EntriesContinue(chain: seq<Mapping>, segs: seq<Segment>, i: nat, n: nat, overlap: nat, offset: nat)
    requires i < |segs| && InOrder(segs) && n > 0 && Chain(chain)
    requires chain != [] ==> Follows(chain[|chain| - 1], Mapping(ToCs(offset), segs[i].start))
    ensures var r := chain + Entries(segs, i, n, overlap, offset);
            var len := CutEnd(segs[i], i + 1 == |segs|, n, overlap) - FirstSample(segs[i], n);
            Chain(r) &&
            (i + 1 < |segs| ==> Follows(r[|r| - 1], Mapping(ToCs(offset + len + SILENCE), segs[i + 1].start)))
  {
    var s := segs[i];
    var full := LastSample(s, n) - FirstSample(s, n);
    var len := CutEnd(s, i + 1 == |segs|, n, overlap) - FirstSample(s, n);
    ToCsMonotone(offset, offset + full);
    hide ToCs;
    var a, b := Mapping(ToCs(offset), s.start), Mapping(ToCs(offset + full), s.end);
    ChainPush(chain, a);
    ChainPush(chain + [a], b);
    if i + 1 < |segs| {
      ToCsMonotone(offset + full, offset + len);
      ToCsMonotone(offset + len, offset + len + SILENCE);
      var c, d := Mapping(ToCs(offset + len), s.end), Mapping(ToCs(offset + len + SILENCE), segs[i + 1].start);
      ChainPush(chain + [a] + [b], c);
      ChainPush(chain + [a] + [b] + [c], d);
      assert chain + [a] + [b] + [c] + [d] == chain + Entries(segs, i, n, overlap, offset);
    } else {
      assert chain + [a] + [b] == chain + Entries(segs, i, n, overlap, offset);
    }
  }

  // ---- which samples are copied, and where to ----

  // Of a segment the samples from its start on are copied: up to its end, or the overlap further if
  // another segment follows, but not the last sample of the audio.
  predicate CopiedFrom(s: Segment, last: bool, n: nat, overlap: nat, x: nat) {
    FromCs(s.start) <= x < n - 1 && x < FromCs(s.end) + if last then 0 else overlap
  }

  predicate IsLast(segs: seq<Segment>, k: nat) { k + 1 == |segs| }

  // how many these are
  function CutLength(s: Segment, last: bool, n: nat, overlap: nat): nat {
    var len := Min(FromCs(s.end) + (if last then 0 else overlap), n - 1) - FromCs(s.start);
    if len > 0 then len else 0
  }

  // where the cut of segment k starts: behind the cuts before it, each with 0.1 s of silence
  function CutStart(segs: seq<Segment>, n: nat, overlap: nat, k: nat): nat
    requires k <= |segs|
  {
    if k == 0 then 0
    else
      var len := CutLength(segs[k - 1], IsLast(segs, k - 1), n, overlap);
      CutStart(segs, n, overlap, k - 1) + len + if len > 0 && k < |segs| then 1600 else 0
  }

  ghost predicate CopyIs(filtered: seq<real>, segs: seq<Segment>, samples: seq<real>, overlap: nat, k: nat)
    requires k < |segs|
  {
    var n, start := |samples|, CutStart(segs, |samples|, overlap, k);
    var len := CutLength(segs[k], IsLast(segs, k), n, overlap);
    && start + len <= CutStart(segs, n, overlap, k + 1) <= |filtered|
    && (forall x: nat :: CopiedFrom(segs[k], IsLast(segs, k), n, overlap, x) ==>
          x - FromCs(segs[k].start) < len && filtered[start + (x - FromCs(segs[k].start))] == samples[x])
    && forall y :: start + len <= y < CutStart(segs, n, overlap, k + 1) ==> filtered[y] == 0.0
  }

  lemma CutIs(segs: seq<Segment>, samples: seq<real>, overlap: nat, i: nat)
    requires InOrder(segs) && i < |segs| && samples != []
    ensures var n, last := |samples|, IsLast(segs, i);
            var from, to := FirstSample(segs[i], n), CutEnd(segs[i], last, n, overlap);
            && CutLength(segs[i], last, n, overlap) == (if to > from then to - from else 0)
            && (to > from ==> from == FromCs(segs[i].start))
            && (forall x: nat :: CopiedFrom(segs[i], last, n, overlap, x) <==> from <= x < to && from < to)
  {
  }

  // what segment i adds
  lemma PieceIs(segs: seq<Segment>, samples: seq<real>, overlap: nat, i: nat) returns (piece: seq<real>)
    requires InOrder(segs) && i < |segs| && samples != []
    ensures Extracted(segs, i, samples, overlap) == piece + Extracted(segs, i + 1, samples, overlap)
    ensures |piece| == CutStart(segs, |samples|, overlap, i + 1) - CutStart(segs, |samples|, overlap, i)
    ensures var len := CutLength(segs[i], IsLast(segs, i), |samples|, overlap);
            && len <= |piece| && (forall y :: len <= y < |piece| ==> piece[y] == 0.0)
            && forall x: nat :: CopiedFrom(segs[i], IsLast(segs, i), |samples|, overlap, x) ==>
                 FromCs(segs[i].start) <= x < FromCs(segs[i].start) + len && x < |samples| &&
                 piece[x - FromCs(segs[i].start)] == samples[x]
  {
    var from, to := FirstSample(segs[i], |samples|), CutEnd(segs[i], i + 1 == |segs|, |samples|, overlap);
    CutIs(segs, samples, overlap, i);
    hide InOrder, CopiedFrom, CutLength, FromCs, FirstSample, CutEnd;
    if to > from {
      var zeros := if i + 1 < |segs| then Zeros() else [];
      piece := samples[from..to] + zeros;
      assert forall x :: from <= x < to ==> piece[x - from] == samples[x];
      assert forall y :: to - from <= y < |piece| ==> piece[y] == zeros[y - (to - from)];
    } else {
      piece := [];
      assert piece + Extracted(segs, i + 1, samples, overlap) == Extracted(segs, i + 1, samples, overlap);
    }
  }

  lemma {:induction false} CopiesFrom(segs: seq<Segment>, samples: seq<real>, overlap: nat, i: nat, k: nat,
    front: seq<real>)
    requires InOrder(segs) && i <= k < |segs| && samples != []
    requires |front| == CutStart(segs, |samples|, overlap, i)
    ensures CopyIs(front + Extracted(segs, i, samples, overlap), segs, samples, overlap, k)
    decreases k - i
  {
    hide InOrder, CopiedFrom, CutLength, Extracted, CutStart, FromCs, IsLast;
    var piece := PieceIs(segs, samples, overlap, i);
    var rest := Extracted(segs, i + 1, samples, overlap);
    var all := front + piece + rest;
    assert front + (piece + rest) == all;
    if i < k {
      hide CopyIs;
      CopiesFrom(segs, samples, overlap, i + 1, k, front + piece);
    } else {
      var from, last := FromCs(segs[i].start), IsLast(segs, i);
      forall x: nat | CopiedFrom(segs[i], last, |samples|, overlap, x)
        ensures from <= x < from + CutLength(segs[i], last, |samples|, overlap) &&
                all[|front| + (x - from)] == samples[x]
      {
        assert all[|front| + (x - from)] == piece[x - from];
      }
      forall y | |front| + CutLength(segs[i], last, |samples|, overlap) <= y < |front| + |piece| ensures all[y] == 0.0 {
        assert all[y] == piece[y - |front|];
      }
    }
  }

  // The cut audio is as long as all cuts, every cut is a copy, and there is silence in between.
  lemma CopiesAll(segs: seq<Segment>, samples: seq<real>, overlap: nat)
    requires InOrder(segs) && samples != []
    ensures |Extracted(segs, 0, samples, overlap)| == CutStart(segs, |samples|, overlap, |segs|)
    ensures forall k :: 0 <= k < |segs| ==> CopyIs(Extracted(segs, 0, samples, overlap), segs, samples, overlap, k)
  {
    hide CopyIs, Extracted;
    ExtractedLength(segs, samples, overlap, 0);
    forall k | 0 <= k < |segs| ensures CopyIs(Extracted(segs, 0, samples, overlap), segs, samples, overlap, k) {
      CopiesFrom(segs, samples, overlap, 0, k, []);
      assert [] + Extracted(segs, 0, samples, overlap) == Extracted(segs, 0, samples, overlap);
    }
  }

  lemma {:induction false} ExtractedLength(segs: seq<Segment>, samples: seq<real>, overlap: nat, i: nat)
    requires InOrder(segs) && i <= |segs| && samples != []
    ensures |Extracted(segs, i, samples, overlap)| ==
            CutStart(segs, |samples|, overlap, |segs|) - CutStart(segs, |samples|, overlap, i)
    decreases |segs| - i
  {
    if i < |segs| {
      hide CutStart;
      var piece := PieceIs(segs, samples, overlap, i);
      ExtractedLength(segs, samples, overlap, i + 1);
    }
  }

  // ---- which points the table has ----

  // the points of cut k: both ends of its segment, and both ends of the silence behind it
  predicate PointOf(segs: seq<Segment>, n: nat, overlap: nat, k: nat, m: Mapping)
    requires k < |segs|
  {
    var start, len := CutStart(segs, n, overlap, k), CutLength(segs[k], IsLast(segs, k), n, overlap);
    && len > 0
    && (|| m == Mapping(ToCs(start), segs[k].start)
        || m == Mapping(ToCs(start + CutLength(segs[k], true, n, overlap)), segs[k].end)
        || (k + 1 < |segs| && m == Mapping(ToCs(start + len), segs[k].end))
        || (k + 1 < |segs| && m == Mapping(ToCs(start + len + 1600), segs[k + 1].start)))
  }

  ghost predicate PointOfSome(segs: seq<Segment>, n: nat, overlap: nat, m: Mapping) {
    exists k :: 0 <= k < |segs| && PointOf(segs, n, overlap, k, m)
  }

  lemma AllEntriesArePoints(segs: seq<Segment>, n: nat, overlap: nat)
    requires InOrder(segs) && n > 0
    ensures forall m :: m in EntriesFrom(segs, 0, n, overlap, 0) <==> PointOfSome(segs, n, overlap, m)
  {
    hide PointOf, EntriesFrom, InOrder;
    assert CutStart(segs, n, overlap, 0) == 0;
    forall m ensures m in EntriesFrom(segs, 0, n, overlap, 0) <==> PointOfSome(segs, n, overlap, m) {
      EntriesArePoints(segs, 0, n, overlap, m);
    }
  }

  lemma EntriesAre(segs: seq<Segment>, i: nat, n: nat, overlap: nat, m: Mapping)
    requires i < |segs| && InOrder(segs) && n > 0 && CutLength(segs[i], IsLast(segs, i), n, overlap) > 0
    ensures m in Entries(segs, i, n, overlap, CutStart(segs, n, overlap, i)) <==> PointOf(segs, n, overlap, i, m)
  {
    hide ToCs, CutStart;
  }

  // The entries are exactly the points of the cuts that are not empty.
  lemma {:induction false} EntriesArePoints(segs: seq<Segment>, i: nat, n: nat, overlap: nat, m: Mapping)
    requires i <= |segs| && InOrder(segs) && n > 0
    ensures m in EntriesFrom(segs, i, n, overlap, CutStart(segs, n, overlap, i)) <==>
            exists k :: i <= k < |segs| && PointOf(segs, n, overlap, k, m)
    decreases |segs| - i
  {
    hide PointOf, Entries, CutStart, CutLength, EntriesFrom, InOrder;
    if i < |segs| {
      EntriesArePoints(segs, i + 1, n, overlap, m);
      EntriesStep(segs, i, n, overlap);
      if CutLength(segs[i], IsLast(segs, i), n, overlap) > 0 {
        EntriesAre(segs, i, n, overlap, m);
      } else {
        EmptyHasNoPoint(segs, i, n, overlap, m);
      }
    } else {
      NoEntries(segs, n, overlap);
    }
  }

  lemma NoEntries(segs: seq<Segment>, n: nat, overlap: nat)
    requires InOrder(segs) && n > 0
    ensures EntriesFrom(segs, |segs|, n, overlap, CutStart(segs, n, overlap, |segs|)) == []
  {
  }

  lemma EntriesStep(segs: seq<Segment>, i: nat, n: nat, overlap: nat)
    requires i < |segs| && InOrder(segs) && n > 0
    ensures var offset, next := CutStart(segs, n, overlap, i), CutStart(segs, n, overlap, i + 1);
            EntriesFrom(segs, i, n, overlap, offset) ==
              (if CutLength(segs[i], IsLast(segs, i), n, overlap) > 0 then Entries(segs, i, n, overlap, offset)
                else []) +
              EntriesFrom(segs, i + 1, n, overlap, next)
  {
    hide InOrder, Entries;
    var next := CutStart(segs, n, overlap, i + 1);
    assert [] + EntriesFrom(segs, i + 1, n, overlap, next) == EntriesFrom(segs, i + 1, n, overlap, next);
  }

  lemma EmptyHasNoPoint(segs: seq<Segment>, k: nat, n: nat, overlap: nat, m: Mapping)
    requires k < |segs| && CutLength(segs[k], IsLast(segs, k), n, overlap) == 0
    ensures !PointOf(segs, n, overlap, k, m)
  {
  }

  method ExtractSpeech(segs: seq<Segment>, samples: seq<real>, overlap: nat)
    returns (filtered: seq<real>, needed: int, table: seq<Mapping>)
    requires InOrder(segs) && samples != []
    ensures filtered == Extracted(segs, 0, samples, overlap)
    ensures needed == Needed(segs, 0, |samples|, overlap)
    // the table holds the boundaries of segments and silences, one for each processed time
    ensures Table(table)
    ensures var all := EntriesFrom(segs, 0, |samples|, overlap, 0);
            (forall m :: m in table ==> m in all) && (forall m :: m in all ==> HasTime(table, m.processed))
    ensures forall m :: m in table ==> PointOfSome(segs, |samples|, overlap, m)
    ensures forall m :: PointOfSome(segs, |samples|, overlap, m) ==> HasTime(table, m.processed)
    // what is copied where: the samples of the segments, with silence in between
    ensures |filtered| == CutStart(segs, |samples|, overlap, |segs|)
    ensures forall k :: 0 <= k < |segs| ==> CopyIs(filtered, segs, samples, overlap, k)
    // when the room reserved is filled exactly
    ensures AllNear(segs, |samples|) ==> (|filtered| == needed <==> AllFill(segs, 0, |samples|, overlap))
    // and when more is written
    ensures AllNear(segs, |samples|) ==> (|filtered| > needed <==> Overruns(segs, 0, |samples|, overlap))
  {
    hide Extracted, Needed, AllNear, AllFill, Overruns, InOrder, Chain, Table, ToCs, FirstSample, CutEnd,
         Entries, EntriesFrom, Zeros, Follows, HasTime, CopyIs, CutStart, PointOfSome;
    needed := ReserveRoom(segs, |samples|, overlap);
    filtered := [];
    var chain: seq<Mapping> := [];
    ChainStart();
    for i := 0 to |segs|
      invariant Extracted(segs, 0, samples, overlap) == filtered + Extracted(segs, i, samples, overlap)
      invariant EntriesFrom(segs, 0, |samples|, overlap, 0) ==
                chain + EntriesFrom(segs, i, |samples|, overlap, |filtered|)
      invariant Chain(chain)
      invariant chain != [] && i < |segs| ==>
                  Follows(chain[|chain| - 1], Mapping(ToCs(|filtered|), segs[i].start))
    {
      filtered, chain := CutSegment(segs, i, samples, overlap, filtered, chain);
    }
    NothingLeft(segs, samples, overlap, filtered, chain);
    table := SortAndDeduplicate(chain);
    CopiesAll(segs, samples, overlap);
    AllEntriesArePoints(segs, |samples|, overlap);
    if AllNear(segs, |samples|) {
      FillsExactlyWhen(segs, 0, samples, overlap);
      OverrunsExactlyWhen(segs, 0, samples, overlap);
    }
  }

  lemma ChainStart()
    ensures Chain([])
  {
  }

  lemma NothingLeft(segs: seq<Segment>, samples: seq<real>, overlap: nat, filtered: seq<real>, chain: seq<Mapping>)
    requires InOrder(segs) && samples != []
    ensures filtered + Extracted(segs, |segs|, samples, overlap) == filtered
    ensures chain + EntriesFrom(segs, |segs|, |samples|, overlap, |filtered|) == chain
  {
  }

  method CutSegment(segs: seq<Segment>, i: nat, samples: seq<real>, overlap: nat, filtered: seq<real>,
    chain: seq<Mapping>)
    returns (out: seq<real>, chainOut: seq<Mapping>)
    requires InOrder(segs) && samples != [] && i < |segs| && Chain(chain)
    requires chain != [] ==> Follows(chain[|chain| - 1], Mapping(ToCs(|filtered|), segs[i].start))
    ensures out + Extracted(segs, i + 1, samples, overlap) == filtered + Extracted(segs, i, samples, overlap)
    ensures chainOut + EntriesFrom(segs, i + 1, |samples|, overlap, |out|) ==
            chain + EntriesFrom(segs, i, |samples|, overlap, |filtered|)
    ensures Chain(chainOut)
    ensures chainOut != [] && i + 1 < |segs| ==>
              Follows(chainOut[|chainOut| - 1], Mapping(ToCs(|out|), segs[i + 1].start))
  {
    hide InOrder, ToCs, Follows, Chain, Entries;
    var n := |samples|;
    var from, to := FirstSample(segs[i], n), CutEnd(segs[i], i + 1 == |segs|, n, overlap);
    out, chainOut := filtered, chain;
    ghost var rest := Extracted(segs, i + 1, samples, overlap);
    if to > from {
      EntriesContinue(chain, segs, i, n, overlap, |filtered|);
      chainOut := chain + Entries(segs, i, n, overlap, |filtered|);
      ghost var later := EntriesFrom(segs, i + 1, n, overlap,
        |filtered| + (to - from) + if i + 1 < |segs| then SILENCE else 0);
      assert chain + (Entries(segs, i, n, overlap, |filtered|) + later) == chainOut + later;
      out := filtered + samples[from..to];
      if i < |segs| - 1 { out := out + Zeros(); }
      assert out == filtered + (samples[from..to] + (if i + 1 < |segs| then Zeros() else []));
      ghost var piece := samples[from..to] + (if i + 1 < |segs| then Zeros() else []);
      assert filtered + (piece + rest) == filtered + piece + rest;
    } else {
      if chain != [] && i + 1 < |segs| { FollowsLater(chain[|chain| - 1], segs, i, ToCs(|filtered|)); }
      assert [] + rest == rest;
    }
  }

  lemma FollowsLater(m: Mapping, segs: seq<Segment>, i: nat, processed: nat)
    requires InOrder(segs) && i + 1 < |segs| && Follows(m, Mapping(processed, segs[i].start))
    ensures Follows(m, Mapping(processed, segs[i + 1].start))
  {
    assert segs[i].start <= segs[i].end <= segs[i + 1].start;
  }

  method ReserveRoom(segs: seq<Segment>, n: nat, overlap: nat) returns (needed: int)
    ensures needed == Needed(segs, 0, n, overlap)
  {
    needed := 0;
    for i := 0 to |segs|
      invariant Needed(segs, 0, n, overlap) ==
                needed + Needed(segs, i, n, overlap) + SILENCE * (if 0 < i == |segs| then i - 1 else i)
    {
      var end := FromCs(segs[i].end);
      if i < |segs| - 1 { end := end + overlap; }
      end := Min(end, n - 1);
      needed := needed + (end - FromCs(segs[i].start));
    }
    needed := needed + (if |segs| > 1 then (|segs| - 1) * SILENCE else 0);
  }

  // Detection and cutting together: speech comes out sorted and apart, and when the least speech is
  // longer than a window the cut audio fills its room exactly.
  method Vad(probs: seq<real>, p: Params, window: nat, samples: seq<real>, overlap: nat)
    returns (segs: seq<Segment>, filtered: seq<real>, needed: int, table: seq<Mapping>)
    requires window > 0 && p.padMs >= 0 && samples != []
    requires SampleOf(window, |probs|) < |samples| + window
    ensures InOrder(segs) && Table(table)
    ensures Samples(p.minSpeechMs) >= window + 160 ==> |filtered| == needed
    // windows have 512 samples
    ensures window < 720 ==> (|filtered| == needed <==> AllFill(segs, 0, |samples|, overlap))
    ensures window < 720 ==> (|filtered| > needed <==> Overruns(segs, 0, |samples|, overlap))
  {
    ghost var speeches;
    segs, speeches := SegmentsFromProbs(probs, p, window);
    filtered, needed, table := ExtractSpeech(segs, samples, overlap);
    hide AllFill, Overruns, Table, ToCs, SampleOf, Samples;
    var audio := SampleOf(window, |probs|);
    if Samples(p.minSpeechMs) >= window + 160 {
      DetectedAreInside(speeches, segs, |samples|, window, audio, Samples(p.minSpeechMs));
      InsideFills(segs, |samples|, overlap);
    }
    if window < 720 { DetectedAreNear(speeches, segs, |samples|, window, audio); }
  }

  lemma DetectedAreNear(speeches: seq<Speech>, segs: seq<Segment>, n: nat, window: nat, audio: int)
    requires Ordered(speeches, 0, audio) && audio < n + window && window < 720
    requires |segs| == |speeches|
    requires forall k :: 0 <= k < |segs| ==> segs[k] == Segment(ToCs(speeches[k].start), ToCs(speeches[k].end))
    ensures AllNear(segs, n)
  {
    forall k | 0 <= k < |segs| ensures FromCs(segs[k].start) < n + 799 {
      RoundedNear(speeches[k].start);
    }
  }

  // ---- a recording that overruns its room ----

  // Speech in the first and in the last of 19 windows, the last of which holds one sample: no least
  // speech, 100 ms least silence and no padding.
  lemma OneSampleTooMany(probs: seq<real>, samples: seq<real>, overlap: nat)
    requires |probs| == 19 && forall k :: 0 <= k < 19 ==> probs[k] == if k == 0 || k == 18 then 1.0 else 0.0
    requires |samples| == 18 * 512 + 1
    ensures var p := Params(0.5, 0, 100, 30.0, 0);
            var speeches := LongEnough(Merged(Detected(RulesOf(p, 512), probs)), Samples(0));
            var segs := [Segment(0, 3), Segment(58, 61)];
            && speeches == [Speech(0, 512), Speech(9216, 9728)]
            && (forall k :: 0 <= k < 2 ==> PaddedStart(speeches, 0, k) == speeches[k].start &&
                                           PaddedEnd(speeches, 0, 9728, k) == speeches[k].end &&
                                           segs[k] == Segment(ToCs(speeches[k].start), ToCs(speeches[k].end)))
            && InOrder(segs) && |Extracted(segs, 0, samples, overlap)| == Needed(segs, 0, |samples|, overlap) + 64
  {
    hide Merged, LongEnough, Detected, RulesOf, PaddedStart, PaddedEnd, Extracted, Needed, InOrder, ToCs;
    var r := RulesOf(Params(0.5, 0, 100, 30.0, 0), 512);
    FirstAndLast(r, probs);
    BothKept();
    NoPadding();
    OverrunBy(samples, overlap);
  }

  lemma BothKept()
    ensures var s := [Speech(0, 512), Speech(9216, 9728)];
            LongEnough(Merged(s), Samples(0)) == s
  {
    var s := [Speech(0, 512), Speech(9216, 9728)];
    assert s[1..] == [Speech(9216, 9728)] && s[1..][1..] == [];
    assert Merged(s) == s;
    assert LongEnough([], 0) == [] && LongEnough(s[1..], 0) == s[1..];
  }

  lemma NoPadding()
    ensures var s, segs := [Speech(0, 512), Speech(9216, 9728)], [Segment(0, 3), Segment(58, 61)];
            forall k :: 0 <= k < 2 ==> PaddedStart(s, 0, k) == s[k].start && PaddedEnd(s, 0, 9728, k) == s[k].end &&
                                       segs[k] == Segment(ToCs(s[k].start), ToCs(s[k].end))
  {
  }

  lemma OverrunBy(samples: seq<real>, overlap: nat)
    requires |samples| == 9217
    ensures var segs := [Segment(0, 3), Segment(58, 61)];
            InOrder(segs) && |Extracted(segs, 0, samples, overlap)| == Needed(segs, 0, |samples|, overlap) + 64
  {
    var segs := [Segment(0, 3), Segment(58, 61)];
    assert |Extracted(segs, 1, samples, overlap)| == 0 && Needed(segs, 1, 9217, overlap) == -64;
  }

  // silence between k and l changes nothing when no segment is open
  lemma {:induction false} StillSilent(r: Rules, probs: seq<real>, k: nat, l: nat)
    requires k <= l <= |probs| && !Scanned(r, probs[..k]).isSpeech
    requires forall m :: k <= m < l ==> probs[m] < r.threshold
    ensures Scanned(r, probs[..l]) == Scanned(r, probs[..k])
    decreases l - k
  {
    if k < l {
      StillSilent(r, probs, k, l - 1);
      ScanStep(r, probs, l - 1);
    }
  }

  // these rules in samples
  lemma RulesAre()
    ensures var r := RulesOf(Params(0.5, 0, 100, 30.0, 0), 512);
            && r.window == 512 && r.threshold == 0.5 && r.minSilence == 1600 && r.minSpeech == 0
            && r.maxSpeech > 9728 && 0.0 < r.negThreshold < 1.0
  {
  }

  lemma FirstAndLast(r: Rules, probs: seq<real>)
    requires r == RulesOf(Params(0.5, 0, 100, 30.0, 0), 512)
    requires |probs| == 19 && forall k :: 0 <= k < 19 ==> probs[k] == if k == 0 || k == 18 then 1.0 else 0.0
    ensures Detected(r, probs) == [Speech(0, 512), Speech(9216, 9728)]
  {
    hide Scanned, RulesOf;
    RulesAre();
    FirstOnly(r, probs);
    StillSilent(r, probs, 6, 18);
    ScanStep(r, probs, 18);
    assert probs[..19] == probs;
  }

  lemma FirstOnly(r: Rules, probs: seq<real>)
    requires r.window == 512 && r.threshold == 0.5 && r.minSilence == 1600 && r.minSpeech == 0
    requires r.maxSpeech > 9728 && 0.0 < r.negThreshold < 1.0
    requires |probs| == 19 && forall k :: 0 <= k < 18 ==> probs[k] == if k == 0 then 1.0 else 0.0
    ensures Scanned(r, probs[..6]) == Book([Speech(0, 512)], false, 0, 0, 0, 0)
  {
    assert probs[..0] == [];
    hide Scanned;
    ScanStep(r, probs, 0);
    assert Scanned(r, probs[..1]) == Book([], true, 0, 0, 0, 0) by { Nothing(r); }
    ScanStep(r, probs, 1);
    ScanStep(r, probs, 2);
    ScanStep(r, probs, 3);
    ScanStep(r, probs, 4);
    assert Scanned(r, probs[..5]) == Book([], true, 512, 0, 0, 0);
    ScanStep(r, probs, 5);
  }

  lemma Nothing(r: Rules)
    ensures Scanned(r, []) == Book([], false, 0, 0, 0, 0)
  {
  }

  // ---- mapping back ----

  // the first entry at or after time, found by halving
  method LowerBound(table: seq<Mapping>, time: nat) returns (k: nat)
    requires Table(table)
    ensures k <= |table|
    ensures forall j :: 0 <= j < k ==> table[j].processed < time
    ensures forall j :: k <= j < |table| ==> time <= table[j].processed
  {
    var lo, hi := 0, |table|;
    while lo < hi
      invariant 0 <= lo <= hi <= |table|
      invariant forall j :: 0 <= j < lo ==> table[j].processed < time
      invariant forall j :: hi <= j < |table| ==> time <= table[j].processed
    {
      var mid := (lo + hi) / 2;
      if table[mid].processed < time { lo := mid + 1; } else { hi := mid; }
    }
    k := lo;
  }

  predicate Between(table: seq<Mapping>, k: nat, time: nat) {
    k + 1 < |table| && table[k].processed <= time < table[k + 1].processed
  }

  // the entry at or before time
  function IndexBefore(table: seq<Mapping>, time: nat, i: nat): (k: nat)
    requires i + 1 < |table| && table[i].processed <= time < table[|table| - 1].processed
    ensures Between(table, k, time)
    decreases |table| - i
  {
    if time < table[i + 1].processed then i else IndexBefore(table, time, i + 1)
  }

  // off along a line that rises by rise over run
  function Rise(off: nat, rise: nat, run: nat): nat
    requires run > 0
  {
    off * rise / run
  }

  lemma RiseBounds(off: nat, more: nat, rise: nat, run: nat)
    requires off <= more <= run && run > 0
    ensures Rise(0, rise, run) == 0
    ensures Rise(off, rise, run) <= Rise(more, rise, run) <= rise
  {
    assert off * rise <= more * rise;
    assert more * rise <= run * rise;
    DivOrder(off * rise, more * rise, run);
    DivOrder(more * rise, run * rise, run);
    DivModUnique(run * rise, run, rise, 0);
    DivModUnique(0, run, 0, 0);
  }

  function Interpolated(a: Mapping, b: Mapping, time: nat): nat
    requires a.processed <= time < b.processed && a.original <= b.original
  {
    a.original + Rise(time - a.processed, b.original - a.original, b.processed - a.processed)
  }

  function MapTime(table: seq<Mapping>, time: nat): nat
    requires Table(table)
  {
    if table == [] then time
    else if time <= table[0].processed then table[0].original
    else if time >= table[|table| - 1].processed then table[|table| - 1].original
    else
      var k := IndexBefore(table, time, 0);
      Interpolated(table[k], table[k + 1], time)
  }

  // inside the table, any pair of entries around the time gives the value
  lemma MapInside(table: seq<Mapping>, k: nat, time: nat)
    requires Table(table) && Between(table, k, time)
    ensures MapTime(table, time) == Interpolated(table[k], table[k + 1], time)
    ensures table[k].original <= MapTime(table, time) <= table[k + 1].original
    ensures time == table[k].processed ==> MapTime(table, time) == table[k].original
  {
    var a, b := table[k], table[k + 1];
    RiseBounds(time - a.processed, time - a.processed, b.original - a.original, b.processed - a.processed);
    hide Rise;
    if time > table[0].processed {
      BetweenUnique(table, k, IndexBefore(table, time, 0), time);
    } else {
      assert k == 0;
    }
  }

  lemma TableAt(table: seq<Mapping>, j: nat, k: nat)
    requires Table(table) && j < |table| && k < |table|
    ensures j < k ==> table[j].processed < table[k].processed && table[j].original <= table[k].original
  {
  }

  lemma BetweenUnique(table: seq<Mapping>, k: nat, l: nat, time: nat)
    requires Table(table) && Between(table, k, time) && Between(table, l, time)
    ensures k == l
  {
    TableAt(table, k + 1, l);
    TableAt(table, l + 1, k);
  }

  method MapToOriginal(time: nat, table: seq<Mapping>) returns (r: nat)
    requires Table(table)
    ensures r == MapTime(table, time)
  {
    hide IndexBefore;
    if table == [] { return time; }
    if time <= table[0].processed { return table[0].original; }
    if time >= table[|table| - 1].processed { return table[|table| - 1].original; }
    var upper := LowerBound(table, time);
    if table[upper].processed == time {
      MapInside(table, upper, time);
      return table[upper].original;
    }
    var lower := upper - 1;
    MapInside(table, lower, time);
    var processedDiff := table[upper].processed - table[lower].processed;
    var originalDiff := table[upper].original - table[lower].original;
    var offset := time - table[lower].processed;
    // entries never share a processed time
    assert processedDiff != 0;
    r := table[lower].original + Rise(offset, originalDiff, processedDiff);
  }

  // Between two neighbouring entries the time is on the straight line through them, rounded down.
  lemma MapOnLine(table: seq<Mapping>, k: nat, time: nat)
    requires Table(table) && Between(table, k, time)
    ensures var a, b := table[k], table[k + 1];
            var up, run, rise := MapTime(table, time) - a.original, b.processed - a.processed, b.original - a.original;
            up * run <= (time - a.processed) * rise < (up + 1) * run
  {
    MapInside(table, k, time);
    TableAt(table, k, k + 1);
    var a, b := table[k], table[k + 1];
    hide MapTime, Between;
    RiseOnLine(time - a.processed, b.original - a.original, b.processed - a.processed);
  }

  lemma RiseOnLine(off: nat, rise: nat, run: nat)
    requires run > 0
    ensures var up := Rise(off, rise, run); up * run <= off * rise < (up + 1) * run
  {
    var all := off * rise;
    assert all == all / run * run + all % run;
  }

  // Exact at the entries.
  lemma ExactAtEntries(table: seq<Mapping>, k: nat)
    requires Table(table) && k < |table|
    ensures MapTime(table, table[k].processed) == table[k].original
  {
    hide IndexBefore, Rise;
    if k + 1 < |table| { MapInside(table, k, table[k].processed); }
  }

  // Never outside the end points.
  lemma MapBounded(table: seq<Mapping>, time: nat)
    requires Table(table) && table != []
    ensures table[0].original <= MapTime(table, time) <= table[|table| - 1].original
  {
    hide Rise, Interpolated;
    if table[0].processed < time < table[|table| - 1].processed {
      MapInside(table, IndexBefore(table, time, 0), time);
    }
  }

  // Never backwards.
  lemma MapMonotone(table: seq<Mapping>, t: nat, u: nat)
    requires Table(table) && t <= u
    ensures MapTime(table, t) <= MapTime(table, u)
  {
    if table != [] {
      MapBounded(table, t);
      MapBounded(table, u);
      if table[0].processed < t && u < table[|table| - 1].processed {
        var k, l := IndexBefore(table, t, 0), IndexBefore(table, u, 0);
        MapInside(table, k, t);
        MapInside(table, l, u);
        if k == l {
          var a, b := table[k], table[k + 1];
          RiseBounds(t - a.processed, u - a.processed, b.original - a.original, b.processed - a.processed);
        } else {
          EarlierPair(table, k, l, t, u);
        }
      }
    }
  }

  lemma EarlierPair(table: seq<Mapping>, k: nat, l: nat, t: nat, u: nat)
    requires Table(table) && Between(table, k, t) && Between(table, l, u) && t <= u && k != l
    ensures k < l && table[k + 1].original <= table[l].original
  {
    TableAt(table, k + 1, l);
    TableAt(table, l + 1, k);
  }
}
