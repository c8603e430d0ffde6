// Which frames the segments begin and end with.
module SegmenterFrames {
  import opened Segmenter

  // when frame k starts: where the one before it ends
  function Time(fs: seq<Frame>, k: nat): nat
    requires k <= |fs|
  {
    if k == 0 then 0 else fs[k - 1].ts + Ms(fs[k - 1].samples)
  }

  lemma TimeNext(fs: seq<Frame>, k: nat)
    requires Seamless(fs) && k < |fs|
    ensures fs[k].ts == Time(fs, k) && Time(fs, k + 1) == Time(fs, k) + Ms(fs[k].samples)
  {
  }

  lemma {:induction false} TimeOrder(fs: seq<Frame>, j: nat, k: nat)
    requires Seamless(fs) && j <= k <= |fs|
    ensures Time(fs, j) <= Time(fs, k)
    decreases k - j
  {
    if j < k {
      TimeNext(fs, k - 1);
      TimeOrder(fs, j, k - 1);
    }
  }

  // the gate has been quiet since frame q, looking no further back than frame m
  predicate QuietSince(loud: seq<bool>, m: nat, q: nat, n: nat) {
    m <= q <= n <= |loud| && (forall k :: q <= k < n ==> !loud[k]) && (q == m || loud[q - 1])
  }

  predicate TwoLoud(loud: seq<bool>, k: nat) { 0 < k < |loud| && loud[k - 1] && loud[k] }

  // two frames in a row have been loud, and not before since frame m
  predicate OpensAt(loud: seq<bool>, m: nat, o: nat) {
    m < o && TwoLoud(loud, o) && forall k :: m < k < o ==> !TwoLoud(loud, k)
  }

  // a segment since start, silence being counted from frame m on, is due after frame k
  ghost predicate DueAfter(fs: seq<Frame>, loud: seq<bool>, m: nat, start: int, k: nat)
    requires k < |fs| == |loud|
  {
    Time(fs, k + 1) - start >= 5000 ||
    exists q: nat :: QuietSince(loud, m, q, k + 1) && Time(fs, k + 1) - Time(fs, q) >= 300
  }

  ghost predicate NoneDue(fs: seq<Frame>, loud: seq<bool>, m: nat, start: int, n: nat)
    requires n <= |fs| == |loud|
  {
    forall k: nat :: m <= k < n ==> !DueAfter(fs, loud, m, start, k)
  }

  // A segment since start. Silence is counted from frame m on, which follows the frame that opened it,
  // or the frame that closed the segment before it for its length. It is closed after frame e.
  datatype Part = Part(start: int, m: nat, e: nat, kind: Kind)

  ghost predicate PartIs(fs: seq<Frame>, loud: seq<bool>, p: Part)
    requires |fs| == |loud|
  {
    match p.kind
    case Silence =>
      && p.m <= p.e < |fs| && NoneDue(fs, loud, p.m, p.start, p.e) && Time(fs, p.e + 1) - p.start < 5000
      && exists q: nat :: QuietSince(loud, p.m, q, p.e + 1) && Time(fs, p.e + 1) - Time(fs, q) >= 300
    case Max =>
      p.m <= p.e < |fs| && NoneDue(fs, loud, p.m, p.start, p.e) && Time(fs, p.e + 1) - p.start >= 5000
    case Eos =>
      p.m <= |fs| == p.e && NoneDue(fs, loud, p.m, p.start, |fs|)
  }

  // since when nothing has been open after the first k parts
  function IdleFrom(parts: seq<Part>, k: nat): nat
    requires k <= |parts|
  {
    if k == 0 then 0 else parts[k - 1].e + 1
  }

  // a segment that frame o opens, with up to 100 ms from before it
  ghost predicate FreshAt(fs: seq<Frame>, loud: seq<bool>, idle: nat, o: nat, start: int, m: nat)
    requires |fs| == |loud|
  {
    && OpensAt(loud, idle, o) && m == o + 1
    && start == if Time(fs, o) - Time(fs, idle) < 100 then Time(fs, idle) else Time(fs, o) - 100
  }

  // how a segment behind the first k parts starts: 1000 ms before the end of one that was closed for
  // its length, else at the first two loud frames
  ghost predicate Starts(fs: seq<Frame>, loud: seq<bool>, parts: seq<Part>, k: nat, start: int, m: nat)
    requires |fs| == |loud| && k <= |parts|
  {
    if k > 0 && parts[k - 1].kind.Max?
    then m == IdleFrom(parts, k) <= |fs| && start == Time(fs, m) - 1000
    else exists o: nat :: FreshAt(fs, loud, IdleFrom(parts, k), o, start, m)
  }

  ghost predicate PartsAre(fs: seq<Frame>, loud: seq<bool>, parts: seq<Part>)
    requires |fs| == |loud|
  {
    forall k :: 0 <= k < |parts| ==>
      PartIs(fs, loud, parts[k]) && Starts(fs, loud, parts, k, parts[k].start, parts[k].m)
  }

  ghost function SegOf(fs: seq<Frame>, p: Part): Seg
    requires p.kind.Eos? || p.e < |fs|
  {
    Seg(p.start, (if p.kind.Eos? then Time(fs, |fs|) else Time(fs, p.e + 1)) - p.start, p.kind)
  }

  ghost predicate SegsAre(fs: seq<Frame>, parts: seq<Part>, segs: seq<Seg>) {
    |segs| == |parts| && forall k :: 0 <= k < |parts| ==> (parts[k].kind.Eos? || parts[k].e < |fs|) &&
                                                          segs[k] == SegOf(fs, parts[k])
  }

  // ---- the state after n frames ----

  ghost predicate OpenIs(fs: seq<Frame>, loud: seq<bool>, n: nat, s: State, m: nat)
    requires |fs| == |loud|
  {
    && m <= n <= |fs| && s.segMs == Time(fs, n) - s.startMs && s.startMs <= Time(fs, m)
    && (exists q: nat :: QuietSince(loud, m, q, n) && s.silentMs == Time(fs, n) - Time(fs, q))
    && NoneDue(fs, loud, m, s.startMs, n)
  }

  ghost predicate IdleIs(fs: seq<Frame>, loud: seq<bool>, n: nat, s: State, m: nat)
    requires |fs| == |loud|
  {
    && m <= n <= |fs| && s.silentMs == 0
    && s.ring == (if Time(fs, n) - Time(fs, m) < 100 then Time(fs, n) - Time(fs, m) else 100)
    && s.consecutive == (if n > m && loud[n - 1] then 1 else 0)
    && forall k :: m < k < n ==> !TwoLoud(loud, k)
  }

  ghost predicate Traced(fs: seq<Frame>, loud: seq<bool>, n: nat, s: State, parts: seq<Part>, m: nat)
    requires |fs| == |loud|
  {
    && PartsAre(fs, loud, parts) && SegsAre(fs, parts, s.segs) && (forall k :: 0 <= k < |parts| ==> !parts[k].kind.Eos?)
    && if s.inSpeech then OpenIs(fs, loud, n, s, m) && Starts(fs, loud, parts, |parts|, s.startMs, m)
       else m == IdleFrom(parts, |parts|) && IdleIs(fs, loud, n, s, m) &&
            (parts != [] ==> parts[|parts| - 1].kind.Silence?)
  }

  lemma QuietNext(loud: seq<bool>, m: nat, q: nat, n: nat)
    requires QuietSince(loud, m, q, n) && n < |loud|
    ensures QuietSince(loud, m, if loud[n] then n + 1 else q, n + 1)
  {
  }

  lemma OneQuiet(loud: seq<bool>, m: nat, q: nat, n: nat)
    requires QuietSince(loud, m, q, n)
    ensures forall q': nat :: QuietSince(loud, m, q', n) ==> q' == q
  {
    forall q': nat | QuietSince(loud, m, q', n) ensures q' == q {
      assert q' == m || loud[q' - 1];
    }
  }

  lemma StartsSame(fs: seq<Frame>, loud: seq<bool>, parts: seq<Part>, p: Part, k: nat, start: int, m: nat)
    requires |fs| == |loud| && k <= |parts|
    ensures Starts(fs, loud, parts + [p], k, start, m) <==> Starts(fs, loud, parts, k, start, m)
  {
    assert IdleFrom(parts + [p], k) == IdleFrom(parts, k);
    hide FreshAt;
  }

  lemma PushPart(fs: seq<Frame>, loud: seq<bool>, parts: seq<Part>, p: Part, segs: seq<Seg>)
    requires |fs| == |loud| && PartsAre(fs, loud, parts) && SegsAre(fs, parts, segs)
    requires PartIs(fs, loud, p) && Starts(fs, loud, parts, |parts|, p.start, p.m)
    ensures PartsAre(fs, loud, parts + [p]) && SegsAre(fs, parts + [p], segs + [SegOf(fs, p)])
  {
    var r := parts + [p];
    assert p.kind.Eos? || p.e < |fs|;
    hide Starts, PartIs, SegOf;
    forall k | 0 <= k < |r| ensures PartIs(fs, loud, r[k]) && Starts(fs, loud, r, k, r[k].start, r[k].m) {
      StartsSame(fs, loud, parts, p, k, r[k].start, r[k].m);
    }
  }

  lemma StepIdle(fs: seq<Frame>, loud: seq<bool>, n: nat, s: State, parts: seq<Part>, m: nat) returns (m': nat)
    requires Seamless(fs) && n < |fs| == |loud| && Traced(fs, loud, n, s, parts, m) && !s.inSpeech
    ensures Traced(fs, loud, n + 1, Advanced(s, fs[n], loud[n]), parts, m')
  {
    hide PartsAre, SegsAre;
    TimeNext(fs, n);
    TimeOrder(fs, m, n);
    SixteenPerMs(fs[n].samples);
    hide Time, Ms;
    m' := if TwoLoud(loud, n) && n > m then n + 1 else m;
    var s' := Advanced(s, fs[n], loud[n]);
    assert s'.segs == s.segs + [] == s.segs;
    if m' == n + 1 {
      assert FreshAt(fs, loud, m, n, s'.startMs, n + 1);
      assert QuietSince(loud, n + 1, n + 1, n + 1);
    }
  }

  // the state of an open segment says when it is due
  lemma DueIs(fs: seq<Frame>, loud: seq<bool>, n: nat, s: State, m: nat)
    requires Seamless(fs) && n < |fs| == |loud| && OpenIs(fs, loud, n, s, m) && s.inSpeech
    ensures Length(s, fs[n]) == Time(fs, n + 1) - s.startMs
    ensures Due(s, fs[n], loud[n]) <==> DueAfter(fs, loud, m, s.startMs, n)
    ensures QuietMs(s, fs[n], loud[n]) >= 300 <==>
            exists q: nat :: QuietSince(loud, m, q, n + 1) && Time(fs, n + 1) - Time(fs, q) >= 300
    ensures exists q: nat :: QuietSince(loud, m, q, n + 1) &&
              QuietMs(s, fs[n], loud[n]) == Time(fs, n + 1) - Time(fs, q)
    ensures QuietMs(s, fs[n], loud[n]) <= Length(s, fs[n])
  {
    var q: nat :| QuietSince(loud, m, q, n) && s.silentMs == Time(fs, n) - Time(fs, q);
    QuietNext(loud, m, q, n);
    OneQuiet(loud, m, if loud[n] then n + 1 else q, n + 1);
    TimeNext(fs, n);
    TimeOrder(fs, m, q);
    TimeOrder(fs, m, n + 1);
    hide Time, Ms, NoneDue, QuietSince;
  }

  lemma StepOpen(fs: seq<Frame>, loud: seq<bool>, n: nat, s: State, parts: seq<Part>, m: nat)
    returns (parts': seq<Part>, m': nat)
    requires Seamless(fs) && n < |fs| == |loud| && Traced(fs, loud, n, s, parts, m) && s.inSpeech
    ensures Traced(fs, loud, n + 1, Advanced(s, fs[n], loud[n]), parts', m')
  {
    hide Traced, Advanced, Due, Length;
    OpenFacts(fs, loud, n, s, parts, m);
    DueIs(fs, loud, n, s, m);
    if !Due(s, fs[n], loud[n]) {
      parts', m' := parts, m;
      StaysOpen(fs, loud, n, s, parts, m);
    } else {
      var p := Part(s.startMs, m, n, if Length(s, fs[n]) >= 5000 then Max else Silence);
      parts', m' := parts + [p], n + 1;
      IsClosed(fs, loud, n, s, parts, p);
    }
  }

  lemma OpenFacts(fs: seq<Frame>, loud: seq<bool>, n: nat, s: State, parts: seq<Part>, m: nat)
    requires n < |fs| == |loud| && Traced(fs, loud, n, s, parts, m) && s.inSpeech
    ensures OpenIs(fs, loud, n, s, m)
  {
  }

  // what a frame does to an open segment
  lemma AdvancedIs(s: State, f: Frame, loud: bool)
    requires s.inSpeech && QuietMs(s, f, loud) <= Length(s, f)
    ensures var r, now, len := Advanced(s, f, loud), f.ts + Ms(f.samples), Length(s, f);
            if !Due(s, f, loud) then
              r.segs == s.segs && r.inSpeech && r.segMs == len && r.silentMs == QuietMs(s, f, loud) &&
              r.startMs == now - len
            else if len >= 5000 then
              r.segs == s.segs + [Seg(now - len, len, Max)] && r.inSpeech && r.segMs == 1000 && r.silentMs == 0 &&
              r.startMs == now - 1000
            else
              !loud && r.segs == s.segs + [Seg(now - len, len, Silence)] && !r.inSpeech &&
              r.ring == r.silentMs == r.consecutive == 0
  {
    hide Length, Ms;
    assert s.segs + [] == s.segs;
  }

  lemma StaysOpen(fs: seq<Frame>, loud: seq<bool>, n: nat, s: State, parts: seq<Part>, m: nat)
    requires Seamless(fs) && n < |fs| == |loud| && Traced(fs, loud, n, s, parts, m) && s.inSpeech
    requires !Due(s, fs[n], loud[n])
    ensures Traced(fs, loud, n + 1, Advanced(s, fs[n], loud[n]), parts, m)
  {
    hide Advanced, Time, Ms, PartsAre, SegsAre, Starts, QuietSince, DueAfter, Due, Length, QuietMs, Seamless;
    DueIs(fs, loud, n, s, m);
    TimeNext(fs, n);
    AdvancedIs(s, fs[n], loud[n]);
  }

  lemma IsClosed(fs: seq<Frame>, loud: seq<bool>, n: nat, s: State, parts: seq<Part>, p: Part)
    requires Seamless(fs) && n < |fs| == |loud| && Traced(fs, loud, n, s, parts, p.m) && s.inSpeech
    requires Due(s, fs[n], loud[n]) && p == Part(s.startMs, p.m, n, if Length(s, fs[n]) >= 5000 then Max else Silence)
    ensures Traced(fs, loud, n + 1, Advanced(s, fs[n], loud[n]), parts + [p], n + 1)
  {
    var s' := Advanced(s, fs[n], loud[n]);
    hide Advanced, Time, Ms, PartsAre, SegsAre, Starts, Length, QuietMs, Seamless, PartIs, Due, OpenIs, IdleIs, SegOf;
    ClosedFacts(fs, loud, n, s, p);
    PushPart(fs, loud, parts, p, s.segs);
    Closes(fs, loud, n, s', parts + [p]);
  }

  lemma ClosedFacts(fs: seq<Frame>, loud: seq<bool>, n: nat, s: State, p: Part)
    requires Seamless(fs) && n < |fs| == |loud| && OpenIs(fs, loud, n, s, p.m) && s.inSpeech
    requires Due(s, fs[n], loud[n]) && p == Part(s.startMs, p.m, n, if Length(s, fs[n]) >= 5000 then Max else Silence)
    ensures PartIs(fs, loud, p)
    ensures var r := Advanced(s, fs[n], loud[n]);
            && r.segs == s.segs + [SegOf(fs, p)] && (r.inSpeech <==> p.kind.Max?)
            && if r.inSpeech then r.segMs == 1000 && r.silentMs == 0 && r.startMs == Time(fs, n + 1) - 1000
               else r.ring == r.silentMs == r.consecutive == 0
  {
    hide Advanced, Time, Ms, QuietSince, NoneDue, Length, QuietMs, Seamless, Due;
    DueIs(fs, loud, n, s, p.m);
    TimeNext(fs, n);
    AdvancedIs(s, fs[n], loud[n]);
  }

  // after a segment has been closed: the next one is open already, or nothing is
  lemma Closes(fs: seq<Frame>, loud: seq<bool>, n: nat, s: State, parts: seq<Part>)
    requires Seamless(fs) && n < |fs| == |loud| && parts != [] && parts[|parts| - 1].e == n
    requires if s.inSpeech then parts[|parts| - 1].kind.Max? && s.segMs == 1000 && s.silentMs == 0 &&
                                s.startMs == Time(fs, n + 1) - 1000
             else parts[|parts| - 1].kind.Silence? && s.ring == s.silentMs == s.consecutive == 0
    ensures if s.inSpeech then OpenIs(fs, loud, n + 1, s, n + 1) && Starts(fs, loud, parts, |parts|, s.startMs, n + 1)
            else n + 1 == IdleFrom(parts, |parts|) && IdleIs(fs, loud, n + 1, s, n + 1)
  {
    assert QuietSince(loud, n + 1, n + 1, n + 1);
    hide Time;
  }

  lemma {:induction false} Trace(fs: seq<Frame>, loud: seq<bool>, n: nat) returns (parts: seq<Part>, m: nat)
    requires Seamless(fs) && n <= |fs| == |loud|
    ensures Traced(fs, loud, n, After(fs[..n], loud[..n]), parts, m)
  {
    if n == 0 {
      parts, m := [], 0;
    } else {
      hide Traced, Advanced, After, Seamless;
      parts, m := Trace(fs, loud, n - 1);
      AfterNext(fs, loud, n - 1);
      parts, m := Step(fs, loud, n - 1, After(fs[..n - 1], loud[..n - 1]), parts, m);
    }
  }

  lemma Step(fs: seq<Frame>, loud: seq<bool>, n: nat, s: State, parts: seq<Part>, m: nat)
    returns (parts': seq<Part>, m': nat)
    requires Seamless(fs) && n < |fs| == |loud| && Traced(fs, loud, n, s, parts, m)
    ensures Traced(fs, loud, n + 1, Advanced(s, fs[n], loud[n]), parts', m')
  {
    hide Traced, Advanced, Seamless;
    if s.inSpeech {
      parts', m' := StepOpen(fs, loud, n, s, parts, m);
    } else {
      parts' := parts;
      m' := StepIdle(fs, loud, n, s, parts, m);
    }
  }

  // what is left at the end: a segment that the stream ends, one that is too short by then, or nothing
  ghost predicate UpToTheEnd(fs: seq<Frame>, loud: seq<bool>, parts: seq<Part>)
    requires |fs| == |loud|
  {
    || (parts != [] && parts[|parts| - 1].kind.Eos?)
    || (exists start: int, m: nat :: Starts(fs, loud, parts, |parts|, start, m) && m <= |fs| &&
          NoneDue(fs, loud, m, start, |fs|) && Time(fs, |fs|) - start < 300)
    || forall k :: IdleFrom(parts, |parts|) < k < |fs| ==> !TwoLoud(loud, k)
  }

  // The segments of a stream, by its frames: each opens at the first two loud frames in a row, with the
  // 100 ms before them, or 1000 ms before the end of one that was closed for its length; and it is closed
  // after the first frame at which 300 ms have been quiet or 5000 ms are reached, or by the end.
  lemma SegmentsAreParts(fs: seq<Frame>, loud: seq<bool>) returns (parts: seq<Part>)
    requires Seamless(fs) && |fs| == |loud|
    ensures PartsAre(fs, loud, parts) && SegsAre(fs, parts, Segments(fs, loud)) && UpToTheEnd(fs, loud, parts)
  {
    var n := |fs|;
    assert fs[..n] == fs && loud[..n] == loud;
    var m;
    parts, m := Trace(fs, loud, n);
    var s := After(fs, loud);
    hide After, PartsAre, SegsAre, Starts, Time, QuietSince, NoneDue;
    if s.inSpeech && s.segMs >= 300 {
      var p := Part(s.startMs, m, n, Eos);
      PushPart(fs, loud, parts, p, s.segs);
      parts := parts + [p];
    } else {
      assert s.segs + [] == s.segs;
    }
  }
}
