// Where speech segments begin and end, said about the frames alone.
module VadFrames {
  import opened VadSegments

  // ---- dips ----

  predicate Speaks(r: Rules, probs: seq<real>, k: nat)
    requires k < |probs|
  {
    probs[k] >= r.threshold
  }

  predicate Quiet(r: Rules, probs: seq<real>, k: nat)
    requires k < |probs|
  {
    probs[k] < r.negThreshold
  }

  // frame f is quiet, and no speech comes back up to frame i
  predicate Dip(r: Rules, probs: seq<real>, f: nat, i: nat) {
    f <= i < |probs| && Quiet(r, probs, f) && forall k :: f < k <= i ==> !Speaks(r, probs, k)
  }

  // the dip that lasts up to frame i begins at f, looking no further back than frame m
  ghost predicate FirstDip(r: Rules, probs: seq<real>, m: nat, f: nat, i: nat) {
    m <= f && Dip(r, probs, f, i) && forall g :: m <= g < f ==> !Dip(r, probs, g, i)
  }

  ghost predicate NoDip(r: Rules, probs: seq<real>, m: nat, i: nat) {
    forall f: nat :: m <= f ==> !Dip(r, probs, f, i)
  }

  // at the quiet frame i the dip since f has lasted for the least silence
  predicate Closes(r: Rules, probs: seq<real>, f: nat, i: nat) {
    Dip(r, probs, f, i) && Quiet(r, probs, i) && SampleOf(r.window, i) - SampleOf(r.window, f) >= r.minSilence
  }

  // no dip among frames m to n - 1 lasts for the least silence
  ghost predicate NoneCloses(r: Rules, probs: seq<real>, m: nat, n: nat) {
    forall f: nat, i: nat :: m <= f <= i < n ==> !Closes(r, probs, f, i)
  }

  // a dip at which a segment may be split
  ghost predicate LongDip(r: Rules, probs: seq<real>, m: nat, f: nat, i: nat) {
    FirstDip(r, probs, m, f, i) && Quiet(r, probs, i) &&
    SampleOf(r.window, i) - SampleOf(r.window, f) > SPLIT_SILENCE
  }

  ghost predicate LastLongDip(r: Rules, probs: seq<real>, m: nat, f: nat, n: nat) {
    && (exists i: nat :: i < n && LongDip(r, probs, m, f, i))
    && forall g: nat, i: nat :: i < n && LongDip(r, probs, m, g, i) ==> g <= f
  }

  ghost predicate NoLongDip(r: Rules, probs: seq<real>, m: nat, n: nat) {
    forall f: nat, i: nat :: i < n ==> !LongDip(r, probs, m, f, i)
  }

  // frame k is the first one after f with speech, before n; k can only be f if f is quiet and speech at once
  predicate BackAt(r: Rules, probs: seq<real>, f: nat, k: nat, n: nat) {
    f <= k < n <= |probs| && Speaks(r, probs, k) && forall l :: f < l < k ==> !Speaks(r, probs, l)
  }

  predicate NotBack(r: Rules, probs: seq<real>, f: nat, n: nat) {
    n <= |probs| && forall l :: f < l < n ==> !Speaks(r, probs, l)
  }

  lemma SampleOrder(window: nat, a: nat, b: nat)
    requires window > 0
    ensures SampleOf(window, a) < SampleOf(window, b) <==> a < b
    ensures a < b ==> SampleOf(window, a + 1) <= SampleOf(window, b)
    ensures SampleOf(window, a + 1) == SampleOf(window, a) + window
  {
    SampleSum(window, a, 1);
    if a < b {
      SampleSum(window, a, b - a);
      SampleSum(window, 1, b - a - 1);
    } else if b < a {
      SampleSum(window, b, a - b);
      SampleSum(window, 1, a - b - 1);
    }
    hide SampleOf;
    WindowSample(window);
  }

  lemma SampleSum(window: nat, a: nat, d: nat)
    ensures SampleOf(window, a + d) == SampleOf(window, a) + SampleOf(window, d)
  {
    assert window * (a + d) == window * a + window * d;
  }

  lemma WindowSample(window: nat)
    ensures SampleOf(window, 1) == window
  {
  }

  // ---- what the bookkeeping means after n frames ----

  // the tentative end is where the dip begins that still lasts
  ghost predicate DipIs(r: Rules, probs: seq<real>, m: nat, n: nat, tempEnd: int) {
    if tempEnd == 0 then n == 0 || NoDip(r, probs, m, n - 1)
    else n > 0 && exists f: nat :: FirstDip(r, probs, m, f, n - 1) && tempEnd == SampleOf(r.window, f)
  }

  // the possible split is the last long dip before frame n, and the restart the first speech behind it
  // before frame n'
  ghost predicate SplitIs(r: Rules, probs: seq<real>, m: nat, n: nat, n': nat, prevEnd: int, nextStart: int) {
    if prevEnd == 0 then nextStart == 0 && NoLongDip(r, probs, m, n)
    else exists f: nat :: SplitAt(r, probs, m, n, n', prevEnd, nextStart, f)
  }

  ghost predicate SplitAt(r: Rules, probs: seq<real>, m: nat, n: nat, n': nat, prevEnd: int, nextStart: int, f: nat) {
    && prevEnd == SampleOf(r.window, f) && LastLongDip(r, probs, m, f, n)
    && if nextStart < prevEnd then NotBack(r, probs, f, n')
       else exists k: nat :: m < k && BackAt(r, probs, f, k, n') && nextStart == SampleOf(r.window, k)
  }

  lemma DipNext(r: Rules, probs: seq<real>, m: nat, n: nat, t: int)
    requires r.window > 0 && 0 < n < |probs| && m <= n && DipIs(r, probs, m, n, t)
    ensures var t1 := if Speaks(r, probs, n) then 0 else t;
            DipIs(r, probs, m, n + 1, if Quiet(r, probs, n) && t1 == 0 then SampleOf(r.window, n) else t1)
  {
    SampleOrder(r.window, 0, n);
    var t1 := if Speaks(r, probs, n) then 0 else t;
    forall g: nat | m <= g < n ensures Dip(r, probs, g, n) <==> Dip(r, probs, g, n - 1) && !Speaks(r, probs, n) {}
    if t1 != 0 {
      var f: nat :| FirstDip(r, probs, m, f, n - 1) && t == SampleOf(r.window, f);
      assert FirstDip(r, probs, m, f, n);
    } else if Quiet(r, probs, n) {
      assert FirstDip(r, probs, m, n, n);
    }
  }

  // what Silenced adds to the possible split at frame n, t being the tentative end afterwards
  lemma SplitNext(r: Rules, probs: seq<real>, m: nat, n: nat, prevEnd: int, nextStart: int, t: int)
    requires r.window > 0 && 0 < n < |probs| && m <= n
    requires SplitIs(r, probs, m, n, n + 1, prevEnd, nextStart)
    requires DipIs(r, probs, m, n + 1, t) && (Quiet(r, probs, n) ==> t != 0)
    ensures var long := Quiet(r, probs, n) && SampleOf(r.window, n) - t > SPLIT_SILENCE;
            SplitIs(r, probs, m, n + 1, n + 1, if long then t else prevEnd, nextStart)
  {
    var curr := SampleOf(r.window, n);
    SampleOrder(r.window, 0, n);
    if Quiet(r, probs, n) {
      var f: nat :| FirstDip(r, probs, m, f, n) && t == SampleOf(r.window, f);
      OneFirstDip(r, probs, m, f, n);
      if curr - t > SPLIT_SILENCE {
        LongIsLast(r, probs, m, f, n);
        SplitMoves(r, probs, m, n, prevEnd, nextStart, f);
      } else {
        NoLongerSplit(r, probs, m, n, prevEnd, nextStart);
      }
    } else {
      NoLongerSplit(r, probs, m, n, prevEnd, nextStart);
    }
  }

  lemma OneFirstDip(r: Rules, probs: seq<real>, m: nat, f: nat, i: nat)
    requires FirstDip(r, probs, m, f, i)
    ensures forall g: nat :: FirstDip(r, probs, m, g, i) ==> g == f
  {
  }

  // a dip that lasts until now is behind every earlier one
  lemma LongIsLast(r: Rules, probs: seq<real>, m: nat, f: nat, n: nat)
    requires LongDip(r, probs, m, f, n)
    ensures LastLongDip(r, probs, m, f, n + 1)
  {
    forall g: nat, i: nat | i < n + 1 && LongDip(r, probs, m, g, i) ensures g <= f {
      assert f <= i ==> Dip(r, probs, f, i);
    }
  }

  // nothing changes when frame n makes no dip long
  lemma NoLongerSplit(r: Rules, probs: seq<real>, m: nat, n: nat, prevEnd: int, nextStart: int)
    requires n < |probs| && SplitIs(r, probs, m, n, n + 1, prevEnd, nextStart)
    requires forall f: nat :: !LongDip(r, probs, m, f, n)
    ensures SplitIs(r, probs, m, n + 1, n + 1, prevEnd, nextStart)
  {
    hide LongDip, BackAt, NotBack;
    if prevEnd != 0 {
      var f: nat :| SplitAt(r, probs, m, n, n + 1, prevEnd, nextStart, f);
      var i: nat :| i < n && LongDip(r, probs, m, f, i);
      assert i < n + 1 && SplitAt(r, probs, m, n + 1, n + 1, prevEnd, nextStart, f);
    }
  }

  // the dip at f has become long at frame n
  lemma SplitMoves(r: Rules, probs: seq<real>, m: nat, n: nat, prevEnd: int, nextStart: int, f: nat)
    requires r.window > 0 && 0 < n < |probs| && SplitIs(r, probs, m, n, n + 1, prevEnd, nextStart)
    requires LongDip(r, probs, m, f, n) && LastLongDip(r, probs, m, f, n + 1) && SampleOf(r.window, f) > 0
    ensures SplitIs(r, probs, m, n + 1, n + 1, SampleOf(r.window, f), nextStart)
  {
    var to := SampleOf(r.window, f);
    hide LastLongDip;
    assert NotBack(r, probs, f, n + 1);
    if prevEnd != 0 {
      var e: nat :| SplitAt(r, probs, m, n, n + 1, prevEnd, nextStart, e);
      SampleOrder(r.window, e, f);
      assert e <= f by { LastBefore(r, probs, m, e, f, n); }
      if nextStart >= prevEnd {
        var k: nat :| m < k && BackAt(r, probs, e, k, n + 1) && nextStart == SampleOf(r.window, k);
        SampleOrder(r.window, k, f);
        assert k <= f;
        if k == f { assert BackAt(r, probs, f, k, n + 1); }
      }
    }
    assert SplitAt(r, probs, m, n + 1, n + 1, to, nextStart, f);
  }

  lemma LastBefore(r: Rules, probs: seq<real>, m: nat, e: nat, f: nat, n: nat)
    requires LastLongDip(r, probs, m, e, n) && LastLongDip(r, probs, m, f, n + 1)
    ensures e <= f
  {
  }

  // ---- the open segment ----

  // a segment has been open since frame s, dips being counted from frame m on, and n frames are done
  ghost predicate OpenIs(r: Rules, probs: seq<real>, n: nat, b: Book, s: nat, m: nat) {
    && s < n <= |probs| && s <= m <= n && Speaks(r, probs, s)
    && b.isSpeech && b.currStart == SampleOf(r.window, s)
    && DipIs(r, probs, m, n, b.tempEnd)
    && SplitIs(r, probs, m, n, n, b.prevEnd, b.nextStart)
    && NoneCloses(r, probs, m, n)
    && SampleOf(r.window, n - 1) - b.currStart <= r.maxSpeech
  }

  // ---- why a segment ends ----

  // Segments start at a frame of speech s. Part(s, m, e, f): decided at frame e, ended at frame f; dips
  // are counted from m on, which is s + 1, or the frame at which the part before was cut at a dip.
  datatype Part = Part(s: nat, m: nat, e: nat, f: nat)

  ghost predicate TooLong(r: Rules, s: nat, e: nat) {
    s < e && SampleOf(r.window, e) - SampleOf(r.window, s) > r.maxSpeech
  }

  // the dip at f has lasted long enough at e, and none before it has
  ghost predicate EndsQuiet(r: Rules, probs: seq<real>, p: Part) {
    FirstDip(r, probs, p.m, p.f, p.e) && Closes(r, probs, p.f, p.e) && NoneCloses(r, probs, p.m, p.e)
    && !TooLong(r, p.s, p.e)
  }

  // at e it is too long for the first time: it ends at the last long dip, or at e if there was none
  ghost predicate IsCut(r: Rules, probs: seq<real>, p: Part) {
    && p.e < |probs| && TooLong(r, p.s, p.e) && !TooLong(r, p.s, p.e - 1) && NoneCloses(r, probs, p.m, p.e)
    && if NoLongDip(r, probs, p.m, p.e) then p.f == p.e else LastLongDip(r, probs, p.m, p.f, p.e)
  }

  // it lasts until the audio ends
  ghost predicate EndsLast(r: Rules, probs: seq<real>, p: Part) {
    p.e == p.f == |probs| && NoneCloses(r, probs, p.m, p.e) && p.e > 0 && !TooLong(r, p.s, p.e - 1)
  }

  ghost predicate PartIs(r: Rules, probs: seq<real>, p: Part) {
    && p.s < |probs| && Speaks(r, probs, p.s) && p.s <= p.m && p.s <= p.f
    && (EndsQuiet(r, probs, p) || IsCut(r, probs, p) || EndsLast(r, probs, p))
  }

  lemma SilencedOpen(r: Rules, probs: seq<real>, n: nat, b: Book, s: nat, m: nat)
    requires r.window > 0 && 0 < n < |probs| && s <= n && s <= m <= n && Speaks(r, probs, s)
    requires b.isSpeech && b.currStart == SampleOf(r.window, s) && !TooLong(r, s, n)
    requires SplitIs(r, probs, m, n, n + 1, b.prevEnd, b.nextStart) && NoneCloses(r, probs, m, n)
    requires DipIs(r, probs, m, n + 1,
               if Quiet(r, probs, n) && b.tempEnd == 0 then SampleOf(r.window, n) else b.tempEnd)
    ensures var c := if Quiet(r, probs, n) then Silenced(r, b, SampleOf(r.window, n)) else b;
            if c.isSpeech then OpenIs(r, probs, n + 1, c, s, m) && c.speeches == b.speeches
            else exists f: nat :: QuietAt(r, probs, b, c, Part(s, m, n, f))
  {
    var curr := SampleOf(r.window, n);
    SampleOrder(r.window, 0, n);
    SampleOrder(r.window, s, n);
    var t := if Quiet(r, probs, n) && b.tempEnd == 0 then curr else b.tempEnd;
    SplitNext(r, probs, m, n, b.prevEnd, b.nextStart, t);
    hide SplitIs, LongDip;
    if Quiet(r, probs, n) {
      var f: nat :| FirstDip(r, probs, m, f, n) && t == SampleOf(r.window, f);
      if curr - t < r.minSilence {
        NotClosing(r, probs, m, n, f);
      } else {
        assert QuietAt(r, probs, b, Silenced(r, b, curr), Part(s, m, n, f));
      }
    } else {
      assert NoneCloses(r, probs, m, n + 1);
    }
  }

  // p has ended in silence, and counts when it is long enough
  ghost predicate QuietAt(r: Rules, probs: seq<real>, b: Book, c: Book, p: Part) {
    && EndsQuiet(r, probs, p)
    && c == Book(if SampleOf(r.window, p.f) - b.currStart > r.minSpeech
                 then b.speeches + [Speech(b.currStart, SampleOf(r.window, p.f))] else b.speeches,
                 false, 0, 0, 0, b.currStart)
  }

  lemma NotClosing(r: Rules, probs: seq<real>, m: nat, n: nat, f: nat)
    requires r.window > 0 && FirstDip(r, probs, m, f, n) && NoneCloses(r, probs, m, n)
    requires SampleOf(r.window, n) - SampleOf(r.window, f) < r.minSilence
    ensures NoneCloses(r, probs, m, n + 1)
  {
    forall g: nat, i: nat | m <= g <= i < n + 1 ensures !Closes(r, probs, g, i) {
      SampleOrder(r.window, g, f);
      if i == n && g < f { assert !Dip(r, probs, g, i); }
    }
  }

  // ---- one part after the other ----

  ghost predicate CutAtDip(r: Rules, probs: seq<real>, p: Part) {
    IsCut(r, probs, p) && !NoLongDip(r, probs, p.m, p.e)
  }

  // after the first k parts nobody has spoken before frame n
  ghost predicate Idle(r: Rules, probs: seq<real>, parts: seq<Part>, k: nat, n: nat)
    requires k <= |parts|
  {
    && n <= |probs| && (k > 0 ==> parts[k - 1].e < n)
    && (forall l: nat :: (if k == 0 then 0 else parts[k - 1].e + 1) <= l < n ==> !Speaks(r, probs, l))
    && (k > 0 && CutAtDip(r, probs, parts[k - 1]) ==> NotBack(r, probs, parts[k - 1].f, parts[k - 1].e + 1))
  }

  // The next part starts where somebody speaks again: behind the dip at which the last one was cut, or
  // at the first frame of speech.
  ghost predicate Starts(r: Rules, probs: seq<real>, parts: seq<Part>, k: nat, s: nat, m: nat)
    requires k <= |parts|
  {
    || (k > 0 && CutAtDip(r, probs, parts[k - 1]) && m == parts[k - 1].e
        && BackAt(r, probs, parts[k - 1].f, s, parts[k - 1].e + 1))
    || (m == s + 1 && Idle(r, probs, parts, k, s))
  }

  ghost predicate PartsAre(r: Rules, probs: seq<real>, parts: seq<Part>) {
    forall k :: 0 <= k < |parts| ==> PartIs(r, probs, parts[k]) && Starts(r, probs, parts, k, parts[k].s, parts[k].m)
  }

  // a part that was cut counts however short it is, another one when it is longer than the least speech
  ghost predicate Counts(r: Rules, probs: seq<real>, p: Part) {
    IsCut(r, probs, p) || SampleOf(r.window, p.f) - SampleOf(r.window, p.s) > r.minSpeech
  }

  ghost function Spoken(r: Rules, probs: seq<real>, parts: seq<Part>): seq<Speech> {
    if parts == [] then []
    else
      var p := parts[|parts| - 1];
      Spoken(r, probs, parts[..|parts| - 1]) +
        if Counts(r, probs, p) then [Speech(SampleOf(r.window, p.s), SampleOf(r.window, p.f))] else []
  }

  // n frames are done; s and m are those of the open segment
  ghost predicate Traced(r: Rules, probs: seq<real>, n: nat, b: Book, parts: seq<Part>, s: nat, m: nat) {
    && n <= |probs| && PartsAre(r, probs, parts) && b.speeches == Spoken(r, probs, parts)
    && if b.isSpeech then OpenIs(r, probs, n, b, s, m) && Starts(r, probs, parts, |parts|, s, m)
       else b.tempEnd == b.prevEnd == b.nextStart == 0 && Idle(r, probs, parts, |parts|, n)
  }

  lemma StartsSame(r: Rules, probs: seq<real>, parts: seq<Part>, p: Part, k: nat, s: nat, m: nat)
    requires k <= |parts|
    ensures Starts(r, probs, parts + [p], k, s, m) <==> Starts(r, probs, parts, k, s, m)
  {
  }

  lemma PartsPush(r: Rules, probs: seq<real>, parts: seq<Part>, p: Part)
    requires PartsAre(r, probs, parts) && PartIs(r, probs, p) && Starts(r, probs, parts, |parts|, p.s, p.m)
    ensures PartsAre(r, probs, parts + [p])
    ensures Spoken(r, probs, parts + [p]) ==
            Spoken(r, probs, parts) +
              if Counts(r, probs, p) then [Speech(SampleOf(r.window, p.s), SampleOf(r.window, p.f))] else []
  {
    hide PartIs, Starts, Counts;
    var q := parts + [p];
    assert q[..|q| - 1] == parts;
    forall k | 0 <= k < |q| ensures PartIs(r, probs, q[k]) && Starts(r, probs, q, k, q[k].s, q[k].m) {
      StartsSame(r, probs, parts, p, k, q[k].s, q[k].m);
    }
  }

  lemma StepIdle(r: Rules, probs: seq<real>, n: nat, b: Book, parts: seq<Part>, s: nat, m: nat)
    requires r.window > 0 && n < |probs| && Traced(r, probs, n, b, parts, s, m) && !b.isSpeech
    ensures var b' := Decided(r, b, probs[n], SampleOf(r.window, n));
            Traced(r, probs, n + 1, b', parts, n, n + 1)
  {
    hide PartsAre, Spoken;
    if Speaks(r, probs, n) {
      assert NoDip(r, probs, n + 1, n);
      assert NoLongDip(r, probs, n + 1, n + 1);
    }
  }

  // speech at frame n ends the dip, and may be where a cut segment goes on
  lemma ResumedSplit(r: Rules, probs: seq<real>, m: nat, n: nat, b: Book)
    requires r.window > 0 && 0 < n < |probs| && m <= n
    requires SplitIs(r, probs, m, n, n, b.prevEnd, b.nextStart) && DipIs(r, probs, m, n, b.tempEnd)
    ensures var b1 := if Speaks(r, probs, n) then Resumed(b, SampleOf(r.window, n)) else b;
            SplitIs(r, probs, m, n, n + 1, b1.prevEnd, b1.nextStart)
  {
    SampleOrder(r.window, 0, n);
    if b.prevEnd != 0 {
      var f: nat :| SplitAt(r, probs, m, n, n, b.prevEnd, b.nextStart, f);
      BackOrNot(r, probs, m, n, b, f);
    } else if Speaks(r, probs, n) {
      assert !(b.nextStart < b.prevEnd);
    }
  }

  lemma BackOrNot(r: Rules, probs: seq<real>, m: nat, n: nat, b: Book, f: nat)
    requires r.window > 0 && 0 < n < |probs| && m <= n && b.prevEnd != 0
    requires SplitAt(r, probs, m, n, n, b.prevEnd, b.nextStart, f) && DipIs(r, probs, m, n, b.tempEnd)
    ensures var b1 := if Speaks(r, probs, n) then Resumed(b, SampleOf(r.window, n)) else b;
            SplitAt(r, probs, m, n, n + 1, b1.prevEnd, b1.nextStart, f)
  {
    var i: nat :| i < n && LongDip(r, probs, m, f, i);
    SampleOrder(r.window, f, n);
    if b.nextStart < b.prevEnd {
      if Speaks(r, probs, n) {
        assert Dip(r, probs, f, n - 1);
        assert b.tempEnd != 0;
        assert BackAt(r, probs, f, n, n + 1);
      }
    } else {
      var k: nat :| m < k && BackAt(r, probs, f, k, n) && b.nextStart == SampleOf(r.window, k);
      assert BackAt(r, probs, f, k, n + 1);
    }
  }

  // a segment that ends at frame n
  lemma EndedAt(r: Rules, probs: seq<real>, n: nat, b: Book, parts: seq<Part>, p: Part, s: nat, m: nat)
    requires n < |probs| && PartsAre(r, probs, parts) && PartIs(r, probs, p) && p.e == n
    requires Starts(r, probs, parts, |parts|, p.s, p.m)
    requires !b.isSpeech && b.tempEnd == b.prevEnd == b.nextStart == 0
    requires CutAtDip(r, probs, p) ==> NotBack(r, probs, p.f, n + 1)
    requires b.speeches == Spoken(r, probs, parts) +
               if Counts(r, probs, p) then [Speech(SampleOf(r.window, p.s), SampleOf(r.window, p.f))] else []
    ensures Traced(r, probs, n + 1, b, parts + [p], s, m)
  {
    hide PartIs, Starts, Counts, Spoken;
    PartsPush(r, probs, parts, p);
    hide PartsAre;
    assert Idle(r, probs, parts + [p], |parts| + 1, n + 1);
  }

  // the silence at frame n, if it is one, after whatever else the frame did
  lemma StepSilence(r: Rules, probs: seq<real>, n: nat, b: Book, parts: seq<Part>, s: nat, m: nat)
    returns (parts': seq<Part>)
    requires r.window > 0 && 0 < n < |probs| && s <= n && s <= m <= n && Speaks(r, probs, s)
    requires b.isSpeech && b.currStart == SampleOf(r.window, s) && !TooLong(r, s, n)
    requires SplitIs(r, probs, m, n, n + 1, b.prevEnd, b.nextStart) && NoneCloses(r, probs, m, n)
    requires DipIs(r, probs, m, n + 1,
               if Quiet(r, probs, n) && b.tempEnd == 0 then SampleOf(r.window, n) else b.tempEnd)
    requires PartsAre(r, probs, parts) && Starts(r, probs, parts, |parts|, s, m) &&
             b.speeches == Spoken(r, probs, parts)
    ensures var c := if Quiet(r, probs, n) then Silenced(r, b, SampleOf(r.window, n)) else b;
            Traced(r, probs, n + 1, c, parts', s, m)
  {
    var c := if Quiet(r, probs, n) then Silenced(r, b, SampleOf(r.window, n)) else b;
    hide Silenced, SplitIs, DipIs, NoneCloses, OpenIs, PartsAre, Spoken, Starts, Traced, QuietAt, TooLong,
         SampleOf, Quiet, Speaks;
    SilencedOpen(r, probs, n, b, s, m);
    parts' := parts;
    if c.isSpeech {
      StillOpen(r, probs, n + 1, c, parts, s, m);
    } else {
      var f: nat :| QuietAt(r, probs, b, c, Part(s, m, n, f));
      parts' := parts + [Part(s, m, n, f)];
      SilenceEnds(r, probs, n, b, c, parts, Part(s, m, n, f));
    }
  }

  lemma SilenceEnds(r: Rules, probs: seq<real>, n: nat, b: Book, c: Book, parts: seq<Part>, p: Part)
    requires n < |probs| && p.e == n && p.s <= n && p.s <= p.m && Speaks(r, probs, p.s)
    requires QuietAt(r, probs, b, c, p) && b.currStart == SampleOf(r.window, p.s)
    requires PartsAre(r, probs, parts) && Starts(r, probs, parts, |parts|, p.s, p.m)
    requires b.speeches == Spoken(r, probs, parts)
    ensures Traced(r, probs, n + 1, c, parts + [p], p.s, p.m)
  {
    hide PartsAre, Spoken, Starts, Traced, EndsQuiet, SampleOf, PartIs, CutAtDip, IsCut, Counts;
    assert b.speeches + [] == b.speeches;
    EndsOnce(r, probs, p);
    EndedAt(r, probs, n, c, parts, p, p.s, p.m);
  }

  lemma StillOpen(r: Rules, probs: seq<real>, n: nat, b: Book, parts: seq<Part>, s: nat, m: nat)
    requires n <= |probs| && b.isSpeech && OpenIs(r, probs, n, b, s, m) && PartsAre(r, probs, parts)
    requires Starts(r, probs, parts, |parts|, s, m) && b.speeches == Spoken(r, probs, parts)
    ensures Traced(r, probs, n, b, parts, s, m)
  {
    hide OpenIs, PartsAre, Starts, Spoken;
  }

  lemma EndsOnce(r: Rules, probs: seq<real>, p: Part)
    requires EndsQuiet(r, probs, p) && p.s < |probs| && Speaks(r, probs, p.s) && p.s <= p.m
    ensures PartIs(r, probs, p) && !IsCut(r, probs, p) && !CutAtDip(r, probs, p)
    ensures Counts(r, probs, p) <==> SampleOf(r.window, p.f) - SampleOf(r.window, p.s) > r.minSpeech
  {
    hide NoneCloses, NoLongDip, LastLongDip;
  }

  lemma StepOpen(r: Rules, probs: seq<real>, n: nat, b: Book, parts: seq<Part>, s: nat, m: nat)
    returns (parts': seq<Part>, s': nat, m': nat)
    requires r.window > 0 && n < |probs| && Traced(r, probs, n, b, parts, s, m) && b.isSpeech
    ensures Traced(r, probs, n + 1, Decided(r, b, probs[n], SampleOf(r.window, n)), parts', s', m')
  {
    var curr := SampleOf(r.window, n);
    var b1 := if Speaks(r, probs, n) then Resumed(b, curr) else b;
    SampleOrder(r.window, s, n);
    SampleOrder(r.window, 0, n);
    DipNext(r, probs, m, n, b.tempEnd);
    ResumedSplit(r, probs, m, n, b);
    hide DipIs, SplitIs, NoneCloses, PartsAre, Starts, Spoken, Silenced, Cut;
    if !TooLong(r, s, n) {
      parts' := StepSilence(r, probs, n, b1, parts, s, m);
      s', m' := s, m;
    } else {
      parts', s', m' := StepCut(r, probs, n, b1, parts, s, m);
    }
  }

  lemma StepCut(r: Rules, probs: seq<real>, n: nat, b: Book, parts: seq<Part>, s: nat, m: nat)
    returns (parts': seq<Part>, s': nat, m': nat)
    requires r.window > 0 && 0 < n < |probs| && s < n && s <= m <= n && Speaks(r, probs, s)
    requires b.isSpeech && b.currStart == SampleOf(r.window, s) && TooLong(r, s, n) && !TooLong(r, s, n - 1)
    requires SplitIs(r, probs, m, n, n + 1, b.prevEnd, b.nextStart) && NoneCloses(r, probs, m, n)
    requires PartsAre(r, probs, parts) && Starts(r, probs, parts, |parts|, s, m) &&
             b.speeches == Spoken(r, probs, parts)
    ensures var curr := SampleOf(r.window, n); var c := Cut(b, curr);
            Traced(r, probs, n + 1,
              if b.prevEnd != 0 && c.isSpeech && Quiet(r, probs, n) then Silenced(r, c, curr) else c, parts', s', m')
  {
    hide NoneCloses, PartsAre, Starts, Spoken, NoLongDip, LastLongDip, DipIs, BackAt, NotBack, Silenced,
         SampleOf, Speaks, Quiet;
    if b.prevEnd == 0 {
      hide Traced;
      CutHere(r, probs, n, b, parts, Part(s, m, n, n));
      parts', s', m' := parts + [Part(s, m, n, n)], s, m;
    } else {
      var f: nat :| SplitAt(r, probs, m, n, n + 1, b.prevEnd, b.nextStart, f);
      var p := Part(s, m, n, f);
      CutThere(r, probs, n, p);
      if b.nextStart < b.prevEnd {
        NotGoingOn(r, probs, n, b, parts, p);
        parts', s', m' := parts + [p], s, m;
      } else {
        var k: nat :| m < k && BackAt(r, probs, f, k, n + 1) && b.nextStart == SampleOf(r.window, k);
        s', m' := k, n;
        parts' := StepGoesOn(r, probs, n, b, parts, p, k);
      }
    }
  }

  lemma CutHere(r: Rules, probs: seq<real>, n: nat, b: Book, parts: seq<Part>, p: Part)
    requires r.window > 0 && 0 < n < |probs| && p == Part(p.s, p.m, n, n) && p.s < n && p.s <= p.m &&
             Speaks(r, probs, p.s)
    requires b.currStart == SampleOf(r.window, p.s) && TooLong(r, p.s, n) && !TooLong(r, p.s, n - 1)
    requires SplitIs(r, probs, p.m, n, n + 1, b.prevEnd, b.nextStart) && NoneCloses(r, probs, p.m, n) && b.prevEnd == 0
    requires PartsAre(r, probs, parts) && Starts(r, probs, parts, |parts|, p.s, p.m) &&
             b.speeches == Spoken(r, probs, parts)
    ensures var c := Cut(b, SampleOf(r.window, n)); !c.isSpeech && Traced(r, probs, n + 1, c, parts + [p], p.s, p.m)
  {
    hide NoneCloses, PartsAre, Starts, Spoken, NoLongDip, Traced, SampleOf, TooLong, Speaks;
    EndedAt(r, probs, n, Cut(b, SampleOf(r.window, n)), parts, p, p.s, p.m);
  }

  lemma NotGoingOn(r: Rules, probs: seq<real>, n: nat, b: Book, parts: seq<Part>, p: Part)
    requires r.window > 0 && 0 < n < |probs| && p.e == n && p.f <= n
    requires b.currStart == SampleOf(r.window, p.s) && b.prevEnd == SampleOf(r.window, p.f) && b.prevEnd != 0
    requires IsCut(r, probs, p) && PartIs(r, probs, p) && Counts(r, probs, p)
    requires b.nextStart < b.prevEnd && NotBack(r, probs, p.f, n + 1)
    requires PartsAre(r, probs, parts) && Starts(r, probs, parts, |parts|, p.s, p.m) &&
             b.speeches == Spoken(r, probs, parts)
    ensures var c := Cut(b, SampleOf(r.window, n)); !c.isSpeech && Traced(r, probs, n + 1, c, parts + [p], p.s, p.m)
  {
    hide NoneCloses, PartsAre, Starts, Spoken, NoLongDip, Traced, SampleOf, TooLong, Speaks, IsCut, PartIs,
         Counts, NotBack;
    EndedAt(r, probs, n, Cut(b, SampleOf(r.window, n)), parts, p, p.s, p.m);
  }

  lemma StepGoesOn(r: Rules, probs: seq<real>, n: nat, b: Book, parts: seq<Part>, p: Part, k: nat)
    returns (parts': seq<Part>)
    requires r.window > 0 && 0 < n < |probs| && p.e == n && p.s <= p.m < k && PartIs(r, probs, p)
    requires b.currStart == SampleOf(r.window, p.s) && b.prevEnd == SampleOf(r.window, p.f) && b.prevEnd != 0
    requires CutAtDip(r, probs, p) && Counts(r, probs, p)
    requires b.nextStart >= b.prevEnd && BackAt(r, probs, p.f, k, n + 1) && b.nextStart == SampleOf(r.window, k)
    requires PartsAre(r, probs, parts) && Starts(r, probs, parts, |parts|, p.s, p.m) &&
             b.speeches == Spoken(r, probs, parts)
    ensures var curr := SampleOf(r.window, n); var c := Cut(b, curr);
            c.isSpeech && Traced(r, probs, n + 1, if Quiet(r, probs, n) then Silenced(r, c, curr) else c, parts', k, n)
  {
    PartsPush(r, probs, parts, p);
    assert Starts(r, probs, parts + [p], |parts| + 1, k, n);
    assert IsCut(r, probs, p) && k <= n && Speaks(r, probs, k);
    hide NoneCloses, PartsAre, Starts, Spoken, NoLongDip, Traced, SampleOf, TooLong, Speaks, IsCut, PartIs,
         Counts, BackAt, DipIs, SplitIs, Silenced, Quiet, CutAtDip;
    GoesOn(r, probs, n, p, k);
    parts' := StepSilence(r, probs, n, Cut(b, SampleOf(r.window, n)), parts + [p], k, n);
  }

  lemma CutThere(r: Rules, probs: seq<real>, n: nat, p: Part)
    requires p.e == n < |probs| && p.s < |probs| && Speaks(r, probs, p.s) && p.s <= p.m
    requires TooLong(r, p.s, n) && !TooLong(r, p.s, n - 1) && NoneCloses(r, probs, p.m, n)
    requires LastLongDip(r, probs, p.m, p.f, n)
    ensures IsCut(r, probs, p) && CutAtDip(r, probs, p) && PartIs(r, probs, p) && Counts(r, probs, p) && p.f <= n
  {
  }

  // a segment that goes on behind a cut is not too long itself, and starts with no dip
  lemma GoesOn(r: Rules, probs: seq<real>, n: nat, p: Part, k: nat)
    requires r.window > 0 && 0 < n < |probs| && p.e == n && IsCut(r, probs, p) && CutAtDip(r, probs, p)
    requires p.s <= p.m < k && BackAt(r, probs, p.f, k, n + 1)
    ensures !TooLong(r, k, n) && NoneCloses(r, probs, n, n) && SplitIs(r, probs, n, n, n + 1, 0, 0)
    ensures DipIs(r, probs, n, n + 1, if Quiet(r, probs, n) then SampleOf(r.window, n) else 0)
  {
    assert k <= n;
    NoneYet(r, probs, n);
    hide LongDip, NoLongDip, LastLongDip, NoneCloses, BackAt, SampleOf, DipIs, NoDip;
    assert DipIs(r, probs, n, n, 0) by { NothingOpen(r, probs, n); }
    DipNext(r, probs, n, n, 0);
    SampleOrder(r.window, p.s, k);
    SampleOrder(r.window, n - 1, n);
  }

  lemma NothingOpen(r: Rules, probs: seq<real>, n: nat)
    requires n > 0
    ensures DipIs(r, probs, n, n, 0)
  {
  }

  lemma NoneYet(r: Rules, probs: seq<real>, n: nat)
    requires n > 0
    ensures NoLongDip(r, probs, n, n) && NoDip(r, probs, n, n - 1) && NoneCloses(r, probs, n, n)
  {
  }

  // ---- whole recordings ----

  lemma {:induction false} Trace(r: Rules, probs: seq<real>, n: nat) returns (parts: seq<Part>, s: nat, m: nat)
    requires r.window > 0 && n <= |probs|
    ensures Traced(r, probs, n, Scanned(r, probs[..n]), parts, s, m)
  {
    if n == 0 {
      parts, s, m := [], 0, 0;
    } else {
      hide Traced, Decided, Scanned, SampleOf;
      parts, s, m := Trace(r, probs, n - 1);
      ScanStep(r, probs, n - 1);
      parts, s, m := Step(r, probs, n - 1, Scanned(r, probs[..n - 1]), parts, s, m);
    }
  }

  lemma Step(r: Rules, probs: seq<real>, n: nat, b: Book, parts: seq<Part>, s: nat, m: nat)
    returns (parts': seq<Part>, s': nat, m': nat)
    requires r.window > 0 && n < |probs| && Traced(r, probs, n, b, parts, s, m)
    ensures Traced(r, probs, n + 1, Decided(r, b, probs[n], SampleOf(r.window, n)), parts', s', m')
  {
    hide Traced, Decided, SampleOf;
    if b.isSpeech {
      parts', s', m' := StepOpen(r, probs, n, b, parts, s, m);
    } else {
      StepIdle(r, probs, n, b, parts, s, m);
      parts', s', m' := parts, n, n + 1;
    }
  }

  // nobody speaks after the last part, or it lasts until the end
  ghost predicate UpToTheEnd(r: Rules, probs: seq<real>, parts: seq<Part>) {
    (parts != [] && EndsLast(r, probs, parts[|parts| - 1])) || Idle(r, probs, parts, |parts|, |probs|)
  }

  // The segments detected are parts of the recording, one after the other to its end: each starts where
  // somebody speaks, and ends where a dip begins that lasts for the least silence, or where it is cut
  // for its length, or with the recording. No dip inside a part lasts that long.
  lemma DetectedAreParts(r: Rules, probs: seq<real>) returns (parts: seq<Part>)
    requires r.window > 0
    ensures PartsAre(r, probs, parts) && UpToTheEnd(r, probs, parts)
    ensures Detected(r, probs) == Spoken(r, probs, parts)
  {
    var n := |probs|;
    var s, m;
    assert probs[..n] == probs;
    parts, s, m := Trace(r, probs, n);
    hide Scanned, PartsAre, Starts, Spoken, SplitIs, DipIs, NoneCloses;
    hide Traced;
    var b := Scanned(r, probs);
    if b.isSpeech {
      LastPart(r, probs, b, parts, Part(s, m, n, n));
      parts := parts + [Part(s, m, n, n)];
    } else {
      assert b.speeches + [] == b.speeches;
      NoLastPart(r, probs, b, parts, s, m);
    }
  }

  lemma LastPart(r: Rules, probs: seq<real>, b: Book, parts: seq<Part>, p: Part)
    requires Traced(r, probs, |probs|, b, parts, p.s, p.m) && b.isSpeech && p.e == p.f == |probs|
    ensures PartsAre(r, probs, parts + [p]) && EndsLast(r, probs, p)
    ensures Spoken(r, probs, parts + [p]) ==
            b.speeches + if SampleOf(r.window, |probs|) - b.currStart > r.minSpeech
                         then [Speech(b.currStart, SampleOf(r.window, |probs|))] else []
  {
    hide PartsAre, Starts, Spoken, SplitIs, DipIs, NoneCloses, SampleOf;
    assert EndsLast(r, probs, p) && !IsCut(r, probs, p);
    PartsPush(r, probs, parts, p);
  }

  lemma NoLastPart(r: Rules, probs: seq<real>, b: Book, parts: seq<Part>, s: nat, m: nat)
    requires Traced(r, probs, |probs|, b, parts, s, m) && !b.isSpeech
    ensures PartsAre(r, probs, parts) && b.speeches == Spoken(r, probs, parts)
    ensures Idle(r, probs, parts, |parts|, |probs|)
  {
  }

  // a part holds frame l, or was cut at it
  ghost predicate Holds(r: Rules, probs: seq<real>, p: Part, l: nat) {
    p.s <= l < p.f || (l == p.e && IsCut(r, probs, p))
  }

  ghost predicate InPart(r: Rules, probs: seq<real>, parts: seq<Part>, l: nat) {
    exists k :: 0 <= k < |parts| && Holds(r, probs, parts[k], l)
  }

  // no speech is lost between one part and the next
  lemma NothingBetween(r: Rules, probs: seq<real>, parts: seq<Part>, k: nat, n: nat, l: nat)
    requires PartsAre(r, probs, parts) && k < |parts| && n <= |probs|
    requires EndsLast(r, probs, parts[k]) || Idle(r, probs, parts, k + 1, n) ||
             (CutAtDip(r, probs, parts[k]) && BackAt(r, probs, parts[k].f, n, parts[k].e + 1))
    requires parts[k].s <= l < n && Speaks(r, probs, l) && !Quiet(r, probs, l)
    ensures Holds(r, probs, parts[k], l)
  {
    var p := parts[k];
    assert PartIs(r, probs, p);
    hide PartsAre, NoneCloses, TooLong, NoLongDip;
  }

  lemma {:induction false} NothingBefore(r: Rules, probs: seq<real>, parts: seq<Part>, k: nat, n: nat, l: nat)
    requires PartsAre(r, probs, parts) && k <= |parts| && n <= |probs|
    requires Idle(r, probs, parts, k, n) || (k > 0 && EndsLast(r, probs, parts[k - 1])) ||
             (k > 0 && CutAtDip(r, probs, parts[k - 1]) && BackAt(r, probs, parts[k - 1].f, n, parts[k - 1].e + 1))
    requires l < n && Speaks(r, probs, l) && !Quiet(r, probs, l)
    ensures InPart(r, probs, parts, l)
  {
    hide EndsLast, CutAtDip, BackAt, IsCut, EndsQuiet;
    if k > 0 {
      var p := parts[k - 1];
      assert PartIs(r, probs, p) && Starts(r, probs, parts, k - 1, p.s, p.m);
      if p.s <= l {
        NothingBetween(r, probs, parts, k - 1, n, l);
      } else {
        hide PartsAre;
        NothingBefore(r, probs, parts, k - 1, p.s, l);
      }
    }
  }

  // Every frame of speech is in a part, but for those at which a part was cut.
  lemma SpeechIsInParts(r: Rules, probs: seq<real>, parts: seq<Part>, l: nat)
    requires PartsAre(r, probs, parts) && UpToTheEnd(r, probs, parts)
    requires l < |probs| && Speaks(r, probs, l) && !Quiet(r, probs, l)
    ensures InPart(r, probs, parts, l)
  {
    NothingBefore(r, probs, parts, |parts|, |probs|, l);
  }

  // ---- the frames leave no choice ----

  lemma OneStart(r: Rules, probs: seq<real>, parts: seq<Part>, k: nat, s: nat, m: nat, s': nat, m': nat)
    requires k <= |parts| && s < |probs| && s' < |probs| && Speaks(r, probs, s) && Speaks(r, probs, s')
    requires Starts(r, probs, parts, k, s, m) && Starts(r, probs, parts, k, s', m') && r.negThreshold <= r.threshold
    ensures s == s' && m == m'
  {
    if k > 0 && CutAtDip(r, probs, parts[k - 1]) {
      CutIsQuiet(r, probs, parts[k - 1]);
    }
    hide CutAtDip;
  }

  lemma CutIsQuiet(r: Rules, probs: seq<real>, p: Part)
    requires CutAtDip(r, probs, p)
    ensures p.f < |probs| && Quiet(r, probs, p.f)
  {
  }

  lemma OnePart(r: Rules, probs: seq<real>, p: Part, q: Part)
    requires r.window > 0 && PartIs(r, probs, p) && PartIs(r, probs, q) && p.s == q.s && p.m == q.m
    ensures p.e <= q.e && (p.e == q.e ==> p.f == q.f)
  {
    SampleOrder(r.window, q.e, p.e);
    if p.e > 0 { SampleOrder(r.window, q.e, p.e - 1); }
    hide SampleOf;
    if EndsQuiet(r, probs, q) {
      assert q.e < p.e ==> !NoneCloses(r, probs, p.m, p.e);
      hide NoneCloses, LongDip;
    } else {
      hide NoneCloses, FirstDip, LongDip;
    }
  }

  lemma {:induction false} OneList(r: Rules, probs: seq<real>, ps: seq<Part>, qs: seq<Part>, k: nat)
    requires r.window > 0 && r.negThreshold <= r.threshold && k <= |ps| && k <= |qs|
    requires PartsAre(r, probs, ps) && PartsAre(r, probs, qs)
    ensures ps[..k] == qs[..k]
  {
    hide PartIs, Starts, Speaks;
    if k > 0 {
      OneList(r, probs, ps, qs, k - 1);
      var p, q := ps[k - 1], qs[k - 1];
      StartsPrefix(r, probs, ps, qs, k - 1, q.s, q.m);
      PartSpeaks(r, probs, p);
      PartSpeaks(r, probs, q);
      OneStart(r, probs, ps, k - 1, p.s, p.m, q.s, q.m);
      OnePart(r, probs, p, q);
      OnePart(r, probs, q, p);
      assert ps[..k] == ps[..k - 1] + [p] && qs[..k] == qs[..k - 1] + [q];
    }
  }

  lemma PartSpeaks(r: Rules, probs: seq<real>, p: Part)
    requires PartIs(r, probs, p)
    ensures p.s < |probs| && Speaks(r, probs, p.s)
  {
  }

  lemma StartsPrefix(r: Rules, probs: seq<real>, ps: seq<Part>, qs: seq<Part>, k: nat, s: nat, m: nat)
    requires k <= |ps| && k <= |qs| && ps[..k] == qs[..k]
    ensures Starts(r, probs, ps, k, s, m) <==> Starts(r, probs, qs, k, s, m)
  {
    if k > 0 { assert ps[k - 1] == ps[..k][k - 1] == qs[..k][k - 1] == qs[k - 1]; }
  }

  // nothing comes after a list that reaches the end
  lemma NoMore(r: Rules, probs: seq<real>, ps: seq<Part>, qs: seq<Part>)
    requires PartsAre(r, probs, ps) && PartsAre(r, probs, qs) && UpToTheEnd(r, probs, ps)
    requires |ps| <= |qs| && ps == qs[..|ps|] && r.negThreshold <= r.threshold
    ensures ps == qs
  {
    var k := |ps|;
    if k < |qs| {
      var q := qs[k];
      StartsPrefix(r, probs, ps, qs, k, q.s, q.m);
      PartSpeaks(r, probs, q) by { assert PartIs(r, probs, q); }
      if k > 0 && CutAtDip(r, probs, ps[k - 1]) { CutIsQuiet(r, probs, ps[k - 1]); }
      hide PartsAre, PartIs, NoLongDip;
      assert false;
    }
  }

  // Whatever list of parts fits the recording, the segments detected are those of the list, as long as
  // no frame is quiet and speech at once.
  lemma DetectedExactly(r: Rules, probs: seq<real>, parts: seq<Part>)
    requires r.window > 0 && r.negThreshold <= r.threshold
    requires PartsAre(r, probs, parts) && UpToTheEnd(r, probs, parts)
    ensures Detected(r, probs) == Spoken(r, probs, parts)
  {
    hide PartsAre, UpToTheEnd, Spoken, Detected;
    var found := DetectedAreParts(r, probs);
    if |found| <= |parts| {
      OneList(r, probs, found, parts, |found|);
      assert found[..|found|] == found;
      NoMore(r, probs, found, parts);
    } else {
      OneList(r, probs, parts, found, |parts|);
      assert parts[..|parts|] == parts;
      NoMore(r, probs, parts, found);
    }
  }
}
