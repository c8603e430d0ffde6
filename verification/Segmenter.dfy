// The speech segmenter's gate, and the time that its segments cover.
module Segmenter {

  const SR := 16000
  const FRAME := 800
  const TRAILING_SILENCE_MS := 2000
  const SILENCE_HANG_MS := 300
  const MAX_SEGMENT_MS := 5000
  const MIN_SEGMENT_MS := 300
  const PRE_ROLL_MS := 100
  const FRAMES_TO_OPEN := 2
  const MAX_OVERLAP_MS := 1000

  // ---- frames ----

  datatype Frame = Frame(ts: nat, samples: nat)

  function Ms(samples: nat): nat { samples * 1000 / SR }

  // each frame starts when the one before it ends
  predicate Seamless(fs: seq<Frame>) {
    && (forall k :: 0 <= k < |fs| ==> fs[k].samples <= FRAME)
    && (fs != [] ==> fs[0].ts == 0)
    && (forall k :: 0 < k < |fs| ==> fs[k].ts == fs[k - 1].ts + Ms(fs[k - 1].samples))
  }

  // whole frames, then the rest; silent frames behind the end are whole again
  function FrameSize(samples: nat, k: nat): nat {
    if FRAME * k < samples < FRAME * k + FRAME then samples - FRAME * k else FRAME
  }

  predicate WellSized(fs: seq<Frame>, samples: nat) {
    forall k :: 0 <= k < |fs| ==> fs[k].samples == FrameSize(samples, k)
  }

  method Frames(samples: nat) returns (fs: seq<Frame>)
    ensures Seamless(fs) && WellSized(fs, samples)
    ensures |fs| == (samples + FRAME - 1) / FRAME + TRAILING_SILENCE_MS / 50
  {
    fs := [];
    var emitted: nat, off := 0, 0;
    while off < samples
      invariant Upto(fs, emitted) && off == FRAME * |fs| && off < samples + FRAME && WellSized(fs, samples)
      invariant emitted == if off < samples then off else samples
    {
      var n := if off + FRAME <= samples then FRAME else samples - off;
      WholeFrames(|fs|, n);
      PushFrame(fs, emitted, n);
      hide Ms, Upto, Seamless;
      fs := fs + [Frame(Ms(emitted), n)];
      emitted := emitted + n;
      off := off + FRAME;
    }
    var chunks := |fs|;
    assert FRAME * chunks >= samples;
    for i := 0 to TRAILING_SILENCE_MS / 50
      invariant Upto(fs, emitted) && |fs| == chunks + i && WellSized(fs, samples)
    {
      OneFrame(emitted);
      PushFrame(fs, emitted, FRAME);
      hide Ms, Upto, Seamless;
      fs := fs + [Frame(Ms(emitted), FRAME)];
      emitted := emitted + FRAME;
    }
  }

  // the frames so far hold emitted samples
  predicate Upto(fs: seq<Frame>, emitted: int) {
    && emitted >= 0 && Seamless(fs)
    && (if fs == [] then emitted == 0 else fs[|fs| - 1].ts + Ms(fs[|fs| - 1].samples) == Ms(emitted))
  }

  lemma PushFrame(fs: seq<Frame>, emitted: nat, n: nat)
    requires Upto(fs, emitted) && n <= FRAME && Ms(emitted + n) == Ms(emitted) + Ms(n)
    ensures Upto(fs + [Frame(Ms(emitted), n)], emitted + n)
  {
  }

  // whole frames lose nothing when their length is rounded to milliseconds
  lemma WholeFrames(k: nat, n: nat)
    ensures Ms(FRAME * k + n) == Ms(FRAME * k) + Ms(n)
  {
    SixteenPerMs(FRAME * k);
    SixteenPerMs(n);
    SixteenPerMs(FRAME * k + n);
  }

  lemma OneFrame(n: nat)
    ensures Ms(n + FRAME) == Ms(n) + Ms(FRAME)
  {
    SixteenPerMs(n);
    SixteenPerMs(n + FRAME);
  }

  lemma SixteenPerMs(n: nat)
    ensures Ms(n) == n / 16
  {
    assert n * 1000 / 16000 == n / 16;
  }

  // ---- segments ----

  datatype Kind = Silence | Max | Eos

  datatype Seg = Seg(start: int, ms: int, kind: Kind)

  function End(s: Seg): int { s.start + s.ms }

  // the next segment shares the overlap with a segment closed for its length, and nothing otherwise
  predicate Next(a: Seg, start: int) {
    if a.kind.Max? then start == End(a) - MAX_OVERLAP_MS else start >= End(a)
  }

  predicate Sized(s: Seg) {
    s.start >= 0 && MIN_SEGMENT_MS <= s.ms < MAX_SEGMENT_MS + 50 && (s.kind.Max? <==> s.ms >= MAX_SEGMENT_MS)
  }

  predicate Laid(segs: seq<Seg>) {
    && (forall k :: 0 <= k < |segs| ==> Sized(segs[k]))
    && (forall k :: 0 < k < |segs| ==> Next(segs[k - 1], segs[k].start))
    && (forall k :: 0 < k < |segs| ==> End(segs[k - 1]) <= End(segs[k]))
    && (forall k :: 0 <= k < |segs| - 1 ==> !segs[k].kind.Eos?)
  }

  datatype State = State(segs: seq<Seg>, ring: int, segMs: int, silentMs: int, consecutive: int, inSpeech: bool,
    startMs: int)

  // what holds between frames, at time now
  predicate Consistent(s: State, now: int) {
    && Laid(s.segs) && (s.segs != [] ==> !Last(s).kind.Eos? && End(Last(s)) <= now)
    && (if s.inSpeech then
          && s.startMs >= 0 && s.startMs + s.segMs == now && 0 <= s.segMs < MAX_SEGMENT_MS
          && (s.segs != [] ==> Next(Last(s), s.startMs) && (Last(s).kind.Max? ==> s.segMs >= MAX_OVERLAP_MS))
        else
          && 0 <= s.ring <= PRE_ROLL_MS && s.ring <= now
          && (s.segs != [] ==> Last(s).kind.Silence? && End(Last(s)) <= now - s.ring))
  }

  function Last(s: State): Seg
    requires s.segs != []
  {
    s.segs[|s.segs| - 1]
  }

  lemma LaidPush(segs: seq<Seg>, a: Seg)
    requires Laid(segs) && Sized(a)
    requires segs != [] ==>
               Next(segs[|segs| - 1], a.start) && End(segs[|segs| - 1]) <= End(a) && !segs[|segs| - 1].kind.Eos?
    ensures Laid(segs + [a])
  {
  }

  // ---- what one frame does, in terms of lengths ----

  // a segment is open at this frame: it was, or enough frames in a row are loud
  predicate Speaks(s: State, loud: bool) { s.inSpeech || (loud && s.consecutive + 1 >= FRAMES_TO_OPEN) }

  // how long the segment is with this frame; a new one begins with the pre-roll
  function Length(s: State, f: Frame): int { (if s.inSpeech then s.segMs else s.ring) + Ms(f.samples) }

  function QuietMs(s: State, f: Frame, loud: bool): int {
    if loud then 0 else if s.inSpeech then s.silentMs + Ms(f.samples) else s.silentMs
  }

  predicate Due(s: State, f: Frame, loud: bool) {
    QuietMs(s, f, loud) >= SILENCE_HANG_MS || Length(s, f) >= MAX_SEGMENT_MS
  }

  // the segments that a frame closes: none or one
  function Closed(s: State, f: Frame, loud: bool): seq<Seg> {
    var len := Length(s, f);
    if Speaks(s, loud) && Due(s, f, loud) && len >= MIN_SEGMENT_MS
    then [Seg(f.ts + Ms(f.samples) - len, len, if len >= MAX_SEGMENT_MS then Max else Silence)]
    else []
  }

  function Advanced(s: State, f: Frame, loud: bool): State {
    var now, len := f.ts + Ms(f.samples), Length(s, f);
    var segs, count := s.segs + Closed(s, f, loud), if loud then s.consecutive + 1 else 0;
    if !Speaks(s, loud) then
      State(segs, if s.ring + Ms(f.samples) < PRE_ROLL_MS then s.ring + Ms(f.samples) else PRE_ROLL_MS, s.segMs,
            QuietMs(s, f, loud), count, false, s.startMs)
    else if !Due(s, f, loud)
      then State(segs, if s.inSpeech then s.ring else 0, len, QuietMs(s, f, loud), count, true, now - len)
    else if len >= MAX_SEGMENT_MS then State(segs, 0, MAX_OVERLAP_MS, 0, count, true, now - MAX_OVERLAP_MS)
    else State(segs, 0, 0, 0, count, false, -1)
  }

  function Start(): State { State([], 0, 0, 0, 0, false, -1) }

  function After(fs: seq<Frame>, loud: seq<bool>): State
    requires |fs| == |loud|
  {
    if fs == [] then Start()
    else Advanced(After(fs[..|fs| - 1], loud[..|fs| - 1]), fs[|fs| - 1], loud[|fs| - 1])
  }

  // the segments of a stream, with the one still open at its end
  function Segments(fs: seq<Frame>, loud: seq<bool>): seq<Seg>
    requires |fs| == |loud|
  {
    var s := After(fs, loud);
    s.segs + if s.inSpeech && s.segMs >= MIN_SEGMENT_MS then [Seg(s.startMs, s.segMs, Eos)] else []
  }

  // the gate's decision about a frame
  method Open(s: State, f: Frame, loud: bool) returns (r: State)
    requires Consistent(s, f.ts)
    ensures r.segs == s.segs && (r.inSpeech <==> Speaks(s, loud))
    ensures r.inSpeech ==> Speaking(r, f.ts)
    ensures r == State(s.segs, if !s.inSpeech && r.inSpeech then 0 else s.ring,
                       if !s.inSpeech && r.inSpeech then s.ring else s.segMs, QuietMs(s, f, loud),
                       if loud then s.consecutive + 1 else 0, Speaks(s, loud),
                       if !s.inSpeech && r.inSpeech then f.ts - s.ring else s.startMs)
  {
    hide Ms;
    r := s;
    if loud {
      r := r.(consecutive := r.consecutive + 1);
      if !r.inSpeech && r.consecutive >= FRAMES_TO_OPEN {
        // the pre-roll becomes part of the segment
        r := r.(inSpeech := true, startMs := f.ts - r.ring, segMs := r.ring, ring := 0);
      }
      r := r.(silentMs := 0);
    } else {
      r := r.(consecutive := 0);
      if r.inSpeech { r := r.(silentMs := r.silentMs + Ms(f.samples)); }
    }
  }

  // the open segment reaches up to now
  predicate Speaking(s: State, now: int) {
    && Laid(s.segs) && (s.segs != [] ==> !Last(s).kind.Eos? && End(Last(s)) <= now)
    && s.startMs >= 0 && s.startMs + s.segMs == now && 0 <= s.segMs < MAX_SEGMENT_MS
    && (s.segs != [] ==> Next(Last(s), s.startMs) && (Last(s).kind.Max? ==> s.segMs >= MAX_OVERLAP_MS))
  }

  // closes the segment after a long silence or at its full length
  method CloseWhenDue(s: State, now: int, frameMs: nat) returns (r: State)
    requires s.inSpeech && Speaking(s, now) && frameMs <= 50
    ensures Consistent(r, now + frameMs)
    ensures s.segs <= r.segs && |r.segs| <= |s.segs| + 1
    ensures r.segs != s.segs ==> End(r.segs[|s.segs|]) == now + frameMs
    ensures var len := s.segMs + frameMs;
            var due := s.silentMs >= SILENCE_HANG_MS || len >= MAX_SEGMENT_MS;
            if !due then r == s.(segMs := len)
            else
              && r.segs == s.segs + (if len < MIN_SEGMENT_MS then []
                              else var kind := if len >= MAX_SEGMENT_MS then Max else Silence;
                                   [Seg(now + frameMs - len, len, kind)])
              && r == if len >= MAX_SEGMENT_MS
                      then State(r.segs, 0, MAX_OVERLAP_MS, 0, s.consecutive, true, now + frameMs - MAX_OVERLAP_MS)
                      else State(r.segs, 0, 0, 0, s.consecutive, false, -1)
  {
    r := s.(segMs := s.segMs + frameMs);
    var silenceReached, maxReached := r.silentMs >= SILENCE_HANG_MS, r.segMs >= MAX_SEGMENT_MS;
    if silenceReached || maxReached {
      if r.segMs >= MIN_SEGMENT_MS {
        var seg := Seg(r.startMs, r.segMs, if maxReached then Max else Silence);
        LaidPush(r.segs, seg);
        r := r.(segs := r.segs + [seg]);
      }
      if maxReached && MAX_OVERLAP_MS > 0 {
        r := r.(startMs := r.startMs + (r.segMs - MAX_OVERLAP_MS), segMs := MAX_OVERLAP_MS, silentMs := 0, ring := 0);
      } else {
        r := r.(segMs := 0, ring := 0, silentMs := 0, inSpeech := false, startMs := -1);
      }
    }
  }

  // one frame, whatever the gate says about it
  method Step(s: State, f: Frame, loud: bool) returns (r: State)
    requires Consistent(s, f.ts) && f.samples <= FRAME
    ensures Consistent(r, f.ts + Ms(f.samples))
    ensures s.segs <= r.segs && |r.segs| <= |s.segs| + 1
    // a segment ends with the frame that closes it
    ensures r.segs != s.segs ==> End(r.segs[|s.segs|]) == f.ts + Ms(f.samples)
    ensures r == Advanced(s, f, loud)
  {
    SixteenPerMs(f.samples);
    var frameMs := Ms(f.samples);
    hide Ms, Laid, Sized;
    r := Open(s, f, loud);
    if r.inSpeech {
      r := CloseWhenDue(r, f.ts, frameMs);
    } else {
      var ring := r.ring + frameMs;
      r := r.(ring := if ring < PRE_ROLL_MS then ring else PRE_ROLL_MS);
    }
  }

  method Segment(fs: seq<Frame>, loud: seq<bool>) returns (segs: seq<Seg>)
    requires Seamless(fs) && |loud| == |fs|
    ensures Laid(segs)
    // a segment closed for its length always has a successor
    ensures segs != [] ==> !segs[|segs| - 1].kind.Max?
    ensures segs == Segments(fs, loud)
  {
    hide Laid, Consistent, Advanced, After, Ms;
    var s := Start();
    ghost var now := 0;
    StartConsistent(fs, loud);
    for i := 0 to |fs|
      invariant Consistent(s, now) && now >= 0 && s == After(fs[..i], loud[..i])
      invariant i < |fs| ==> fs[i].ts == now
    {
      AfterNext(fs, loud, i);
      s := Step(s, fs[i], loud[i]);
      now := now + Ms(fs[i].samples);
    }
    assert fs[..|fs|] == fs && loud[..|fs|] == loud;
    segs := Flush(s, now);
  }

  lemma StartConsistent(fs: seq<Frame>, loud: seq<bool>)
    requires |fs| == |loud|
    ensures Consistent(Start(), 0) && After(fs[..0], loud[..0]) == Start()
  {
  }

  lemma AfterNext(fs: seq<Frame>, loud: seq<bool>, i: nat)
    requires |fs| == |loud| && i < |fs|
    ensures After(fs[..i + 1], loud[..i + 1]) == Advanced(After(fs[..i], loud[..i]), fs[i], loud[i])
  {
    hide Advanced;
    assert fs[..i + 1][..i] == fs[..i] && loud[..i + 1][..i] == loud[..i];
  }

  // end of stream
  method Flush(s: State, ghost now: int) returns (segs: seq<Seg>)
    requires Consistent(s, now)
    ensures Laid(segs) && (segs != [] ==> !segs[|segs| - 1].kind.Max?)
    ensures segs == s.segs + if s.inSpeech && s.segMs >= MIN_SEGMENT_MS then [Seg(s.startMs, s.segMs, Eos)] else []
  {
    segs := s.segs;
    if s.inSpeech && s.segMs >= MIN_SEGMENT_MS {
      LaidPush(segs, Seg(s.startMs, s.segMs, Eos));
      segs := segs + [Seg(s.startMs, s.segMs, Eos)];
    }
  }

  // ---- the time covered ----

  // half-open intervals of milliseconds
  datatype Span = Span(a: int, b: int)

  predicate Before(x: Span, y: Span) { x.a < y.a || (x.a == y.a && x.b <= y.b) }

  predicate SortedSpans(s: seq<Span>) { forall j, k :: 0 <= j < k < |s| ==> Before(s[j], s[k]) }

  function Insert(x: Span, s: seq<Span>): (r: seq<Span>)
    ensures multiset(r) == multiset(s) + multiset{x}
  {
    if s == [] then [x]
    else if Before(x, s[0]) then [x] + s
    else
      assert s == [s[0]] + s[1..];
      [s[0]] + Insert(x, s[1..])
  }

  function Sort(s: seq<Span>): (r: seq<Span>)
    ensures multiset(r) == multiset(s)
  {
    if s == [] then []
    else
      assert s == [s[0]] + s[1..];
      Insert(s[0], Sort(s[1..]))
  }

  lemma {:induction false} InsertSorted(x: Span, s: seq<Span>)
    requires SortedSpans(s)
    ensures SortedSpans(Insert(x, s))
  {
    if s != [] && !Before(x, s[0]) {
      InsertSorted(x, s[1..]);
      var r := Insert(x, s[1..]);
      forall k | 0 <= k < |r| ensures Before(s[0], r[k]) {
        assert r[k] in multiset(r);
        assert r[k] == x || r[k] in s[1..];
      }
    }
  }

  lemma {:induction false} SortSorts(s: seq<Span>)
    ensures SortedSpans(Sort(s))
  {
    if s != [] {
      SortSorts(s[1..]);
      InsertSorted(s[0], Sort(s[1..]));
    }
  }

  lemma {:induction false} SortKeepsSorted(s: seq<Span>)
    requires SortedSpans(s)
    ensures Sort(s) == s
  {
    if s != [] {
      SortKeepsSorted(s[1..]);
      assert s == [s[0]] + s[1..];
    }
  }

  // what the sweep adds up, with from to to still open
  function Sweep(spans: seq<Span>, from: int, to: int): int {
    if spans == [] then to - from
    else if spans[0].a <= to then Sweep(spans[1..], from, if spans[0].b > to then spans[0].b else to)
    else to - from + Sweep(spans[1..], spans[0].a, spans[0].b)
  }

  function SpansOf(segs: seq<Seg>): (r: seq<Span>)
    ensures |r| == |segs|
  {
    seq(|segs|, k requires 0 <= k < |segs| => Span(segs[k].start, End(segs[k])))
  }

  function Union(segs: seq<Seg>): int {
    var spans := Sort(SpansOf(segs));
    if spans == [] then 0 else Sweep(spans[1..], spans[0].a, spans[0].b)
  }

  method UnionMs(segs: seq<Seg>) returns (total: int)
    ensures total == Union(segs)
  {
    var spans := Sort(SpansOf(segs));
    if spans == [] { return 0; }
    total := 0;
    var curStart, curEnd := spans[0].a, spans[0].b;
    for i := 1 to |spans|
      invariant Sweep(spans[1..], spans[0].a, spans[0].b) == total + Sweep(spans[i..], curStart, curEnd)
    {
      assert spans[i..][0] == spans[i] && spans[i..][1..] == spans[i + 1..];
      var a, b := spans[i].a, spans[i].b;
      if a <= curEnd {
        curEnd := if b > curEnd then b else curEnd;
      } else {
        total := total + (curEnd - curStart);
        curStart, curEnd := a, b;
      }
    }
    total := total + (curEnd - curStart);
  }

  // ---- the sweep measures the union ----

  predicate In(s: Span, t: int) { s.a <= t < s.b }

  predicate InAny(spans: seq<Span>, t: int) { exists k :: 0 <= k < |spans| && In(spans[k], t) }

  // how many milliseconds of lo to hi some span covers
  function Measure(spans: seq<Span>, lo: int, hi: int): nat
    decreases hi - lo
  {
    if lo >= hi then 0 else (if InAny(spans, hi - 1) then 1 else 0) + Measure(spans, lo, hi - 1)
  }

  lemma {:induction false} MeasureSame(x: seq<Span>, y: seq<Span>, lo: int, hi: int)
    requires forall t :: lo <= t < hi ==> (InAny(x, t) <==> InAny(y, t))
    ensures Measure(x, lo, hi) == Measure(y, lo, hi)
    decreases hi - lo
  {
    if lo < hi { MeasureSame(x, y, lo, hi - 1); }
  }

  lemma {:induction false} MeasureSplit(x: seq<Span>, lo: int, mid: int, hi: int)
    requires lo <= mid <= hi
    ensures Measure(x, lo, hi) == Measure(x, lo, mid) + Measure(x, mid, hi)
    decreases hi - mid
  {
    if mid < hi { MeasureSplit(x, lo, mid, hi - 1); }
  }

  lemma {:induction false} MeasureAll(x: seq<Span>, lo: int, hi: int, covered: bool)
    requires lo <= hi && forall t :: lo <= t < hi ==> InAny(x, t) == covered
    ensures Measure(x, lo, hi) == if covered then hi - lo else 0
    decreases hi - lo
  {
    if lo < hi { MeasureAll(x, lo, hi - 1, covered); }
  }

  lemma InFirstOrRest(s: Span, rest: seq<Span>, t: int)
    ensures InAny([s] + rest, t) <==> In(s, t) || InAny(rest, t)
  {
    var all := [s] + rest;
    if k :| 0 <= k < |rest| && In(rest[k], t) { assert In(all[k + 1], t); }
    if k :| 0 <= k < |all| && In(all[k], t) {
      if k > 0 { assert In(rest[k - 1], t); }
    }
    assert all[0] == s;
  }

  // The sweep adds up the measure of the open interval and the spans to come.
  lemma {:induction false} SweepMeasures(spans: seq<Span>, from: int, to: int, hi: int)
    requires from <= to <= hi && SortedSpans(spans)
    requires forall k :: 0 <= k < |spans| ==> from <= spans[k].a <= spans[k].b <= hi
    ensures Sweep(spans, from, to) == Measure([Span(from, to)] + spans, from, hi)
    decreases |spans|
  {
    var all := [Span(from, to)] + spans;
    hide InAny, Measure, Sort;
    forall t ensures InAny(all, t) <==> In(Span(from, to), t) || InAny(spans, t) {
      InFirstOrRest(Span(from, to), spans, t);
    }
    if spans == [] {
      NoneIn(from, hi);
      MeasureSplit(all, from, to, hi);
      MeasureAll(all, from, to, true);
      MeasureAll(all, to, hi, false);
    } else {
      var a, b, rest := spans[0].a, spans[0].b, spans[1..];
      assert spans == [spans[0]] + rest;
      forall t ensures InAny(spans, t) <==> In(spans[0], t) || InAny(rest, t) {
        InFirstOrRest(spans[0], rest, t);
      }
      if a <= to {
        var end := if b > to then b else to;
        SweepMeasures(rest, from, end, hi);
        forall t ensures InAny([Span(from, end)] + rest, t) <==> In(Span(from, end), t) || InAny(rest, t) {
          InFirstOrRest(Span(from, end), rest, t);
        }
        MeasureSame(all, [Span(from, end)] + rest, from, hi);
      } else {
        SweepMeasures(rest, a, b, hi);
        assert [Span(a, b)] + rest == spans;
        LaterSpans(spans, a);
        MeasureSplit(all, from, a, hi);
        MeasureSplit(all, from, to, a);
        MeasureAll(all, from, to, true);
        MeasureAll(all, to, a, false);
        MeasureSame(all, spans, a, hi);
      }
    }
  }

  lemma NoneIn(lo: int, hi: int)
    ensures forall t :: lo <= t < hi ==> !InAny([], t)
  {
  }

  // nothing is covered before the first span
  lemma LaterSpans(spans: seq<Span>, a: int)
    requires forall k :: 0 <= k < |spans| ==> a <= spans[k].a
    ensures forall t :: t < a ==> !InAny(spans, t)
  {
  }

  lemma SortCovers(s: seq<Span>, t: int)
    ensures InAny(Sort(s), t) <==> InAny(s, t)
  {
    var r := Sort(s);
    if k :| 0 <= k < |s| && In(s[k], t) {
      assert s[k] in multiset(r);
      var j :| 0 <= j < |r| && r[j] == s[k];
      assert In(r[j], t);
    }
    if k :| 0 <= k < |r| && In(r[k], t) {
      assert r[k] in multiset(s);
      var j :| 0 <= j < |s| && s[j] == r[k];
      assert In(s[j], t);
    }
  }

  predicate Inside(spans: seq<Span>, lo: int, hi: int) {
    forall k :: 0 <= k < |spans| ==> lo <= spans[k].a <= spans[k].b <= hi
  }

  lemma SortedMeasure(spans: seq<Span>, lo: int, hi: int)
    requires lo <= hi && SortedSpans(spans) && Inside(spans, lo, hi)
    ensures Measure(spans, lo, hi) == if spans == [] then 0 else Sweep(spans[1..], spans[0].a, spans[0].b)
  {
    hide InAny, Measure;
    if spans == [] {
      NoneIn(lo, hi);
      MeasureAll(spans, lo, hi, false);
    } else {
      var a := spans[0].a;
      assert [Span(a, spans[0].b)] + spans[1..] == spans;
      SweepMeasures(spans[1..], a, spans[0].b, hi);
      LaterSpans(spans, a);
      MeasureSplit(spans, lo, a, hi);
      MeasureAll(spans, lo, a, false);
    }
  }

  lemma SortInside(s: seq<Span>, lo: int, hi: int)
    requires Inside(s, lo, hi)
    ensures Inside(Sort(s), lo, hi)
  {
    var r := Sort(s);
    forall k | 0 <= k < |r| ensures lo <= r[k].a <= r[k].b <= hi {
      assert r[k] in multiset(s);
    }
  }

  // For segments in any order, union_ms is the measure of their union.
  lemma UnionIsMeasure(segs: seq<Seg>, lo: int, hi: int)
    requires lo <= hi && Inside(SpansOf(segs), lo, hi)
    ensures Union(segs) == Measure(SpansOf(segs), lo, hi)
  {
    hide Sort, InAny, Measure, Inside, SortedSpans, Sweep;
    var s := SpansOf(segs);
    SortSorts(s);
    SortInside(s, lo, hi);
    SortedMeasure(Sort(s), lo, hi);
    forall t ensures InAny(Sort(s), t) <==> InAny(s, t) {
      SortCovers(s, t);
    }
    MeasureSame(Sort(s), s, lo, hi);
  }

  // ---- exact accounting ----

  function SumMs(segs: seq<Seg>): int { if segs == [] then 0 else segs[0].ms + SumMs(segs[1..]) }

  function CountMax(segs: seq<Seg>): nat {
    if segs == [] then 0 else (if segs[0].kind.Max? then 1 else 0) + CountMax(segs[1..])
  }

  lemma {:induction false} LaidInOrder(segs: seq<Seg>, k: nat)
    requires Laid(segs) && k < |segs|
    ensures forall j :: 0 <= j < k ==> segs[j].start < segs[k].start
  {
    if k > 0 {
      LaidInOrder(segs, k - 1);
      assert Next(segs[k - 1], segs[k].start) && Sized(segs[k - 1]);
    }
  }

  lemma LaidSorted(segs: seq<Seg>)
    requires Laid(segs)
    ensures SortedSpans(SpansOf(segs))
  {
    var spans := SpansOf(segs);
    forall j, k | 0 <= j < k < |spans| ensures Before(spans[j], spans[k]) {
      LaidInOrder(segs, k);
    }
  }

  lemma {:induction false} SweepOfLaid(segs: seq<Seg>, from: int)
    requires Laid(segs) && segs != [] && !segs[|segs| - 1].kind.Max?
    ensures Sweep(SpansOf(segs[1..]), from, End(segs[0])) ==
            End(segs[0]) - from + SumMs(segs[1..]) - MAX_OVERLAP_MS * CountMax(segs)
    decreases |segs|
  {
    var rest := segs[1..];
    if rest != [] {
      assert Next(segs[0], segs[1].start) && End(segs[0]) <= End(segs[1]) && Sized(segs[1]);
      assert SpansOf(rest)[1..] == SpansOf(rest[1..]);
      SweepOfLaid(rest, from);
      SweepOfLaid(rest, segs[1].start);
    } else {
      assert segs[0] == segs[|segs| - 1];
    }
  }

  // The union is the sum of the durations, less one overlap for each segment closed for its length.
  lemma UnionOfSegments(segs: seq<Seg>)
    requires Laid(segs) && (segs != [] ==> !segs[|segs| - 1].kind.Max?)
    ensures Union(segs) == SumMs(segs) - MAX_OVERLAP_MS * CountMax(segs)
  {
    var spans := SpansOf(segs);
    LaidSorted(segs);
    SortKeepsSorted(spans);
    hide Laid, Sort, SortedSpans;
    if segs != [] {
      assert spans[1..] == SpansOf(segs[1..]);
      SweepOfLaid(segs, segs[0].start);
    }
  }

  // Whatever the gate decides, the time reported as covered is the measure of the union.
  method Covered(samples: nat, loud: seq<bool>) returns (segs: seq<Seg>, covered: int)
    requires |loud| == (samples + FRAME - 1) / FRAME + TRAILING_SILENCE_MS / 50
    ensures Laid(segs)
    ensures covered == SumMs(segs) - MAX_OVERLAP_MS * CountMax(segs)
    ensures forall lo, hi :: lo <= hi && Inside(SpansOf(segs), lo, hi) ==> covered == Measure(SpansOf(segs), lo, hi)
  {
    var fs := Frames(samples);
    segs := Segment(fs, loud);
    covered := UnionMs(segs);
    UnionOfSegments(segs);
    hide Union, SumMs, CountMax, Inside;
    forall lo, hi | lo <= hi && Inside(SpansOf(segs), lo, hi) ensures covered == Measure(SpansOf(segs), lo, hi) {
      UnionIsMeasure(segs, lo, hi);
    }
  }
}
