// Speech segments from frame probabilities: scan, merge, filter, pad.
module VadSegments {

  const SAMPLE_RATE := 16000
  const INT_MAX := 0x7FFF_FFFF
  // silence after which a segment may be split when it gets too long
  const SPLIT_SILENCE := SAMPLE_RATE * 98 / 1000
  const MERGE_GAP := SAMPLE_RATE * 200 / 1000

  datatype Params = Params(threshold: real, minSpeechMs: int, minSilenceMs: int, maxSpeechS: real, padMs: int)

  // in samples
  datatype Speech = Speech(start: int, end: int)

  function Samples(ms: int): (n: int)
    ensures n == 16 * ms
  {
    SAMPLE_RATE * ms / 1000
  }

  function Truncate(x: real): int { if x >= 0.0 then x.Floor else -((-x).Floor) }

  function MaxSpeech(p: Params, window: nat): (n: nat) {
    if p.maxSpeechS > 100000.0 then INT_MAX / 2
    else
      var n := SAMPLE_RATE * Truncate(p.maxSpeechS) - window - 2 * Samples(p.padMs);
      if n > INT_MAX || n < 0 then INT_MAX / 2 else n
  }

  // the greater of the two
  function NegThreshold(threshold: real): (n: real)
    ensures n >= 0.01 && n >= threshold - 0.15 && (n == 0.01 || n == threshold - 0.15)
  {
    if threshold - 0.15 < 0.01 then 0.01 else threshold - 0.15
  }

  // one after the other between lo and hi
  predicate Ordered(s: seq<Speech>, lo: int, hi: int) {
    && (forall k :: 0 <= k < |s| ==> lo <= s[k].start <= s[k].end <= hi)
    && (forall j, k :: 0 <= j < k < |s| ==> s[j].end <= s[k].start)
  }

  // the first sample of frame i
  function SampleOf(window: nat, i: nat): nat { window * i }

  lemma NextFrame(window: nat, i: nat)
    ensures SampleOf(window, i + 1) == SampleOf(window, i) + window
    ensures window > 0 && i > 0 ==> SampleOf(window, i) > SampleOf(window, i - 1)
    ensures SampleOf(window, 0) == 0
  {
    assert window * (i + 1) == window * i + window;
    assert i > 0 ==> window * i == window * (i - 1) + window;
  }

  function LastEnd(s: seq<Speech>): int { if s == [] then 0 else s[|s| - 1].end }

  lemma OrderedPush(s: seq<Speech>, a: Speech, hi: int)
    requires Ordered(s, 0, hi) && LastEnd(s) <= a.start <= a.end <= hi
    ensures Ordered(s + [a], 0, hi) && LastEnd(s + [a]) == a.end
  {
  }

  // ---- the scan, frame by frame ----

  datatype Rules = Rules(window: nat, threshold: real, negThreshold: real, minSpeech: int, minSilence: int,
                         maxSpeech: nat)

  function RulesOf(p: Params, window: nat): Rules {
    Rules(window, p.threshold, NegThreshold(p.threshold), Samples(p.minSpeechMs), Samples(p.minSilenceMs),
          MaxSpeech(p, window))
  }

  datatype Book = Book(speeches: seq<Speech>, isSpeech: bool, tempEnd: int, prevEnd: int, nextStart: int,
    currStart: int)

  // speech has come back
  function Resumed(b: Book, curr: int): Book {
    if b.tempEnd == 0 then b
    else b.(tempEnd := 0, nextStart := if b.nextStart < b.prevEnd then curr else b.nextStart)
  }

  // the segment is cut at the last long silence, or here; it goes on where speech came back
  function Cut(b: Book, curr: int): Book {
    var piece := Speech(b.currStart, if b.prevEnd != 0 then b.prevEnd else curr);
    var goesOn := b.prevEnd != 0 && b.prevEnd <= b.nextStart;
    Book(b.speeches + [piece], goesOn, 0, 0, 0, if goesOn then b.nextStart else b.currStart)
  }

  // the segment ends when the silence has lasted, and counts when it is long enough
  function Silenced(r: Rules, b: Book, curr: int): Book {
    var from := if b.tempEnd == 0 then curr else b.tempEnd;
    if curr - from < r.minSilence
    then b.(tempEnd := from, prevEnd := if curr - from > SPLIT_SILENCE then from else b.prevEnd)
    else Book(if from - b.currStart > r.minSpeech then b.speeches + [Speech(b.currStart, from)] else b.speeches,
              false, 0, 0, 0, b.currStart)
  }

  function Decided(r: Rules, b: Book, prob: real, curr: int): Book {
    var b1 := if prob >= r.threshold then Resumed(b, curr) else b;
    if prob >= r.threshold && !b1.isSpeech then b1.(isSpeech := true, currStart := curr)
    else
      var tooLong := b1.isSpeech && curr - b1.currStart > r.maxSpeech;
      var b2 := if tooLong then Cut(b1, curr) else b1;
      if tooLong && b1.prevEnd == 0 then b2
      else if prob < r.negThreshold && b2.isSpeech then Silenced(r, b2, curr)
      else b2
  }

  function Scanned(r: Rules, probs: seq<real>): Book {
    if probs == [] then Book([], false, 0, 0, 0, 0)
    else Decided(r, Scanned(r, probs[..|probs| - 1]), probs[|probs| - 1], SampleOf(r.window, |probs| - 1))
  }

  lemma ScanStep(r: Rules, probs: seq<real>, k: nat)
    requires k < |probs|
    ensures Scanned(r, probs[..k + 1]) == Decided(r, Scanned(r, probs[..k]), probs[k], SampleOf(r.window, k))
  {
    assert probs[..k + 1][..k] == probs[..k] && probs[..k + 1][k] == probs[k];
  }

  // the segments of a recording, with the one still open at its end
  function Detected(r: Rules, probs: seq<real>): seq<Speech> {
    var b, audio := Scanned(r, probs), SampleOf(r.window, |probs|);
    b.speeches + if b.isSpeech && audio - b.currStart > r.minSpeech then [Speech(b.currStart, audio)] else []
  }

  // a frame of speech starts at sample
  ghost predicate SpeechFrame(probs: seq<real>, window: nat, threshold: real, sample: int) {
    exists k :: 0 <= k < |probs| && sample == SampleOf(window, k) && probs[k] >= threshold
  }

  class Scanner {
    const window: nat
    const threshold: real
    const negThreshold: real
    const minSpeech: int
    const minSilence: int
    const maxSpeech: nat
    var speeches: seq<Speech>
    var isSpeech: bool
    var tempEnd: int
    var prevEnd: int
    var nextStart: int
    var currStart: int
    var hasCurr: bool
    ghost var probs: seq<real>

    function Now(): Book
      reads this
    {
      Book(speeches, isSpeech, tempEnd, prevEnd, nextStart, currStart)
    }

    function Limits(): Rules { Rules(window, threshold, negThreshold, minSpeech, minSilence, maxSpeech) }

    // a frame of speech starts at this sample
    ghost predicate SpeechAt(sample: int)
      reads `probs
    {
      SpeechFrame(probs, window, threshold, sample)
    }

    ghost predicate AllSpeechAt(s: seq<Speech>)
      reads `probs
    {
      forall k :: 0 <= k < |s| ==> SpeechAt(s[k].start)
    }

    lemma PushSpeech(a: Speech, hi: int)
      requires Ordered(speeches, 0, hi) && AllSpeechAt(speeches) && SpeechAt(a.start)
      requires LastEnd(speeches) <= a.start <= a.end <= hi
      ensures Ordered(speeches + [a], 0, hi) && AllSpeechAt(speeches + [a]) && LastEnd(speeches + [a]) == a.end
    {
      hide SpeechFrame;
      OrderedPush(speeches, a, hi);
    }

    // where the latest frame starts
    ghost function LastSample(): nat
      reads `probs
    {
      if probs == [] then 0 else SampleOf(window, |probs| - 1)
    }

    ghost predicate Valid()
      reads this
    {
      window > 0 && State(LastSample()) && (isSpeech ==> probs != [])
    }

    // everything decided up to sample last
    ghost predicate State(last: int)
      reads this
    {
      && hasCurr == isSpeech
      && Ordered(speeches, 0, last) && AllSpeechAt(speeches)
      && (isSpeech ==> InSpeech(last))
      && (!isSpeech ==> tempEnd == prevEnd == nextStart == 0)
    }

    // the bookkeeping inside a segment, all of it at or before sample last
    ghost predicate InSpeech(last: int)
      reads this
    {
      && LastEnd(speeches) <= currStart <= last && currStart >= 0 && SpeechAt(currStart)
      && (tempEnd == 0 || currStart <= tempEnd <= last) && tempEnd >= 0
      && (prevEnd == 0 || currStart <= prevEnd <= last) && 0 <= nextStart <= last
      && (prevEnd == 0 ==> nextStart == 0)
      // speech has come back after the possible split, or the silence still lasts
      && (nextStart > 0 ==> SpeechAt(nextStart))
      && (prevEnd > 0 && tempEnd == 0 ==> prevEnd <= nextStart)
    }

    constructor (p: Params, window: nat)
      requires window > 0
      ensures Valid() && probs == [] && Now() == Scanned(Limits(), []) && Limits() == RulesOf(p, window)
    {
      this.window := window;
      threshold := p.threshold;
      negThreshold := NegThreshold(p.threshold);
      minSpeech := Samples(p.minSpeechMs);
      minSilence := Samples(p.minSilenceMs);
      maxSpeech := MaxSpeech(p, window);
      speeches := [];
      isSpeech, hasCurr := false, false;
      tempEnd, prevEnd, nextStart, currStart := 0, 0, 0, 0;
      probs := [];
    }

    // frames seen so far are also there when more are seen
    twostate lemma SpeechStays(sample: int)
      requires old(SpeechAt(sample)) && old(probs) <= probs
      ensures SpeechAt(sample)
    {
      var k :| 0 <= k < |old(probs)| && sample == SampleOf(window, k) && old(probs)[k] >= threshold;
      assert probs[k] >= threshold;
    }

    twostate lemma StateStays(i: nat)
      requires old(Valid()) && old(probs) <= probs && i == |old(probs)|
      requires unchanged(`speeches, `isSpeech, `hasCurr, `currStart, `tempEnd, `prevEnd, `nextStart)
      ensures State(SampleOf(window, i)) && (isSpeech ==> SampleOf(window, i) > 0)
    {
      NextFrame(window, i);
      assert old(LastSample()) <= SampleOf(window, i);
      hide SpeechFrame, SampleOf;
      forall k | 0 <= k < |speeches| ensures SpeechAt(speeches[k].start) {
        SpeechStays(speeches[k].start);
      }
      if isSpeech {
        SpeechStays(currStart);
        if nextStart > 0 { SpeechStays(nextStart); }
      }
    }

    // speech comes back before the silence was long enough: it may be where a split segment restarts
    method Resume(curr: int)
      requires isSpeech ==> InSpeech(curr)
      requires !isSpeech ==> tempEnd == prevEnd == nextStart == 0
      requires 0 <= curr && SpeechAt(curr)
      modifies `tempEnd, `nextStart
      ensures Now() == Resumed(old(Now()), curr)
      ensures isSpeech ==> InSpeech(curr) && (prevEnd != 0 ==> prevEnd <= nextStart)
      ensures !isSpeech ==> tempEnd == prevEnd == nextStart == 0
    {
      if tempEnd != 0 {
        tempEnd := 0;
        if nextStart < prevEnd { nextStart := curr; }
      }
    }

    // cuts a segment that has become too long; done tells that the frame needs no more
    method Split(curr: int) returns (done: bool)
      requires isSpeech && hasCurr && InSpeech(curr) && curr - currStart > maxSpeech
      requires Ordered(speeches, 0, curr) && AllSpeechAt(speeches)
      modifies `speeches, `isSpeech, `hasCurr, `currStart, `tempEnd, `prevEnd, `nextStart
      ensures hasCurr == isSpeech && tempEnd == prevEnd == nextStart == 0
      ensures Ordered(speeches, 0, curr) && AllSpeechAt(speeches)
      ensures isSpeech ==> InSpeech(curr)
      ensures done ==> !isSpeech
      ensures Now() == Cut(old(Now()), curr) && (done <==> old(prevEnd) == 0)
    {
      hide Ordered, SpeechFrame, Scanner.AllSpeechAt;
      PushSpeech(Speech(currStart, if prevEnd != 0 then prevEnd else curr), curr);
      if prevEnd != 0 {
        speeches := speeches + [Speech(currStart, prevEnd)];
        hasCurr := true;
        if nextStart < prevEnd {
          // still not speech
          isSpeech := false;
          hasCurr := false;
        } else {
          currStart := nextStart;
        }
        prevEnd, nextStart, tempEnd := 0, 0, 0;
        done := false;
      } else {
        speeches := speeches + [Speech(currStart, curr)];
        prevEnd, nextStart, tempEnd := 0, 0, 0;
        isSpeech := false;
        hasCurr := false;
        done := true;
      }
    }

    // a frame of silence inside a segment
    method Silence(curr: int)
      requires isSpeech && hasCurr && InSpeech(curr) && curr > 0
      requires Ordered(speeches, 0, curr) && AllSpeechAt(speeches)
      modifies `speeches, `isSpeech, `hasCurr, `tempEnd, `prevEnd, `nextStart
      ensures hasCurr == isSpeech
      ensures Ordered(speeches, 0, curr) && AllSpeechAt(speeches)
      ensures if isSpeech then InSpeech(curr) else tempEnd == prevEnd == nextStart == 0
      ensures Now() == Silenced(Limits(), old(Now()), curr)
    {
      hide Ordered, SpeechFrame, Scanner.AllSpeechAt;
      ghost var from := if tempEnd == 0 then curr else tempEnd;
      if from - currStart > minSpeech { PushSpeech(Speech(currStart, from), curr); }
      if tempEnd == 0 { tempEnd := curr; }
      if curr - tempEnd > SPLIT_SILENCE { prevEnd := tempEnd; }
      if curr - tempEnd < minSilence { return; }
      if tempEnd - currStart > minSpeech {
        speeches := speeches + [Speech(currStart, tempEnd)];
      }
      prevEnd, nextStart, tempEnd := 0, 0, 0;
      isSpeech := false;
      hasCurr := false;
    }

    // frame i
    method Feed(i: nat, prob: real)
      requires Valid() && i == |probs|
      modifies this
      ensures Valid() && probs == old(probs) + [prob]
      ensures Now() == Decided(Limits(), old(Now()), prob, SampleOf(window, i))
      // a frame of speech is inside a segment, unless a segment was cut at it for its length
      ensures prob >= threshold && prob >= negThreshold ==> isSpeech || LastEnd(speeches) == SampleOf(window, i)
    {
      var curr := SampleOf(window, i);
      probs := probs + [prob];
      assert prob >= threshold ==> SpeechAt(curr) by { assert probs[i] == prob; }
      StateStays(i);
      Decide(prob, curr);
    }

    method Decide(prob: real, curr: nat)
      requires State(curr) && (isSpeech ==> curr > 0) && (prob >= threshold ==> SpeechAt(curr))
      modifies this
      ensures State(curr) && probs == old(probs) && Now() == Decided(Limits(), old(Now()), prob, curr)
      ensures prob >= threshold && prob >= negThreshold ==> isSpeech || LastEnd(speeches) == curr
    {
      hide Ordered, Scanner.InSpeech, Scanner.AllSpeechAt, Scanner.SpeechAt;
      if prob >= threshold {
        Resume(curr);
        if !isSpeech {
          isSpeech := true;
          currStart := curr;
          hasCurr := true;
          StartsSpeech(curr);
          return;
        }
      }
      if isSpeech && curr - currStart > maxSpeech {
        var done := Split(curr);
        if done { return; }
      }
      if prob < negThreshold && isSpeech { Silence(curr); }
    }

    lemma StartsSpeech(curr: nat)
      requires isSpeech && currStart == curr && SpeechAt(curr) && Ordered(speeches, 0, curr)
      requires tempEnd == prevEnd == nextStart == 0
      ensures InSpeech(curr)
    {
    }

    // at the end of the audio
    method Finish(audio: int) returns (result: seq<Speech>)
      requires Valid() && audio == SampleOf(window, |probs|)
      ensures Ordered(result, 0, audio)
      ensures forall k :: 0 <= k < |result| ==> SpeechAt(result[k].start)
      ensures result == if isSpeech && audio - currStart > minSpeech
                        then speeches + [Speech(currStart, audio)] else speeches
    {
      result := speeches;
      NextFrame(window, |probs|);
      assert LastSample() <= audio;
      if hasCurr && audio - currStart > minSpeech {
        PushSpeech(Speech(currStart, audio), audio);
        result := result + [Speech(currStart, audio)];
      }
    }
  }

  method Scan(probs: seq<real>, p: Params, window: nat) returns (speeches: seq<Speech>)
    requires window > 0
    ensures Ordered(speeches, 0, SampleOf(window, |probs|))
    ensures forall k :: 0 <= k < |speeches| ==> SpeechFrame(probs, window, p.threshold, speeches[k].start)
    ensures speeches == Detected(RulesOf(p, window), probs)
  {
    var s := new Scanner(p, window);
    assert probs[..0] == [];
    for i := 0 to |probs|
      invariant s.Valid() && fresh(s) && s.probs == probs[..i] && s.Limits() == RulesOf(p, window)
      invariant s.Now() == Scanned(RulesOf(p, window), probs[..i])
    {
      hide Scanner.Valid, Decided;
      assert probs[..i + 1][..i] == probs[..i];
      s.Feed(i, probs[i]);
    }
    assert probs[..|probs|] == probs;
    speeches := s.Finish(SampleOf(window, |probs|));
    forall k | 0 <= k < |speeches| ensures SpeechFrame(probs, window, p.threshold, speeches[k].start) {
      assert s.SpeechAt(speeches[k].start);
    }
  }

  // ---- merging ----

  // neighbours with a small gap become one, from the front
  function Merged(s: seq<Speech>): (r: seq<Speech>)
    ensures s != [] ==> r != [] && r[0].start == s[0].start
    ensures |r| <= |s|
    decreases |s|
  {
    if |s| < 2 then s
    else if s[1].start - s[0].end < MERGE_GAP then Merged([Speech(s[0].start, s[1].end)] + s[2..])
    else [s[0]] + Merged(s[1..])
  }

  // Merging keeps the order and leaves no small gap.
  lemma {:induction false} MergedApart(s: seq<Speech>, lo: int, hi: int)
    requires Ordered(s, lo, hi)
    ensures Ordered(Merged(s), lo, hi)
    ensures forall k :: 0 < k < |Merged(s)| ==> Merged(s)[k].start - Merged(s)[k - 1].end >= MERGE_GAP
    decreases |s|
  {
    if |s| >= 2 {
      if s[1].start - s[0].end < MERGE_GAP {
        MergedApart([Speech(s[0].start, s[1].end)] + s[2..], lo, hi);
      } else {
        MergedApart(s[1..], s[0].end, hi);
      }
    }
  }

  ghost predicate InSome(s: seq<Speech>, x: int) { exists k :: 0 <= k < |s| && s[k].start <= x < s[k].end }

  // What was speech stays speech.
  lemma {:induction false} MergedCovers(s: seq<Speech>, lo: int, hi: int, x: int)
    requires Ordered(s, lo, hi) && InSome(s, x)
    ensures InSome(Merged(s), x)
    decreases |s|
  {
    if |s| >= 2 {
      InFirstOrRest(s, x);
      InFirstOrRest(Merged(s), x);
      if s[1].start - s[0].end < MERGE_GAP {
        var t := [Speech(s[0].start, s[1].end)] + s[2..];
        InFirstOrRest(s[1..], x);
        InFirstOrRest(t, x);
        assert s[1..][1..] == s[2..] && t[1..] == s[2..];
        MergedCovers(t, lo, hi, x);
      } else {
        assert Merged(s)[1..] == Merged(s[1..]);
        if InSome(s[1..], x) { MergedCovers(s[1..], s[0].end, hi, x); }
      }
    }
  }

  lemma InFirstOrRest(s: seq<Speech>, x: int)
    requires s != []
    ensures InSome(s, x) <==> s[0].start <= x < s[0].end || InSome(s[1..], x)
  {
    if k :| 0 <= k < |s| && s[k].start <= x < s[k].end {
      if k > 0 { assert s[1..][k - 1] == s[k]; }
    }
    if k :| 0 <= k < |s[1..]| && s[1..][k].start <= x < s[1..][k].end { assert s[k + 1] == s[1..][k]; }
  }

  method Merge(s: seq<Speech>) returns (r: seq<Speech>)
    ensures r == Merged(s)
  {
    r := s;
    if |r| > 1 {
      var i := 0;
      while i < |r| - 1
        invariant 0 <= i < |r| && Merged(s) == r[..i] + Merged(r[i..])
        decreases |r| - i
      {
        ghost var before := r;
        if r[i + 1].start - r[i].end < MERGE_GAP {
          r := r[i := Speech(r[i].start, r[i + 1].end)];
          r := r[..i + 1] + r[i + 2..];
          assert r[i..] == [Speech(before[i].start, before[i + 1].end)] + before[i..][2..];
          assert r[..i] == before[..i];
        } else {
          assert before[i..][1..] == r[i + 1..];
          assert r[..i] + ([r[i]] + Merged(r[i + 1..])) == r[..i + 1] + Merged(r[i + 1..]);
          i := i + 1;
        }
      }
      assert r[..i] + r[i..] == r;
    }
  }

  // ---- the minimum length ----

  function LongEnough(s: seq<Speech>, least: int): (r: seq<Speech>)
    ensures forall k :: 0 <= k < |r| ==> r[k].end - r[k].start >= least && r[k] in s
  {
    if s == [] then []
    else if s[0].end - s[0].start < least then LongEnough(s[1..], least)
    else [s[0]] + LongEnough(s[1..], least)
  }

  lemma OrderedRest(s: seq<Speech>, lo: int, hi: int)
    requires s != [] && Ordered(s, lo, hi)
    ensures lo <= s[0].start <= s[0].end <= hi && Ordered(s[1..], s[0].end, hi)
  {
  }

  lemma OrderedFirst(a: Speech, s: seq<Speech>, lo: int, hi: int)
    requires lo <= a.start <= a.end <= hi && Ordered(s, a.end, hi)
    ensures Ordered([a] + s, lo, hi) && Ordered(s, lo, hi)
  {
  }

  lemma {:induction false} LongEnoughOrdered(s: seq<Speech>, least: int, lo: int, hi: int)
    requires Ordered(s, lo, hi)
    ensures Ordered(LongEnough(s, least), lo, hi)
  {
    if s != [] {
      OrderedRest(s, lo, hi);
      hide Ordered;
      var rest := LongEnough(s[1..], least);
      LongEnoughOrdered(s[1..], least, s[0].end, hi);
      OrderedFirst(s[0], rest, lo, hi);
    }
  }

  // only the short ones go
  lemma {:induction false} LongEnoughStay(s: seq<Speech>, least: int, a: Speech)
    ensures a in LongEnough(s, least) <==> a in s && a.end - a.start >= least
  {
    if s != [] {
      assert s == [s[0]] + s[1..];
      LongEnoughStay(s[1..], least, a);
    }
  }

  method DropShort(s: seq<Speech>, least: int) returns (r: seq<Speech>)
    ensures r == LongEnough(s, least)
  {
    r := s;
    var i := 0;
    while i < |r|
      invariant 0 <= i <= |r| && LongEnough(s, least) == r[..i] + LongEnough(r[i..], least)
      decreases |r| - i
    {
      assert r[i..][1..] == r[i + 1..];
      if r[i].end - r[i].start < least {
        ghost var before := r;
        r := r[..i] + r[i + 1..];
        assert r[i..] == before[i + 1..] && r[..i] == before[..i];
      } else {
        assert r[..i] + ([r[i]] + LongEnough(r[i + 1..], least)) == r[..i + 1] + LongEnough(r[i + 1..], least);
        i := i + 1;
      }
    }
    assert r[..i] == r;
  }

  // ---- padding ----

  function Gap(s: seq<Speech>, k: nat): int
    requires k + 1 < |s|
  {
    s[k + 1].start - s[k].end
  }

  function AtLeast0(x: int): int { if x > 0 then x else 0 }

  function AtMost(x: int, hi: int): int { if x < hi then x else hi }

  // each side takes the padding, or half of a gap too small for both
  function PaddedStart(s: seq<Speech>, pad: nat, k: nat): int
    requires k < |s|
  {
    if k > 0 && Gap(s, k - 1) < 2 * pad then AtLeast0(s[k].start - Gap(s, k - 1) / 2)
    else AtLeast0(s[k].start - pad)
  }

  function PaddedEnd(s: seq<Speech>, pad: nat, audio: int, k: nat): int
    requires k < |s|
  {
    if k + 1 < |s| && Gap(s, k) < 2 * pad then s[k].end + Gap(s, k) / 2
    else AtMost(s[k].end + pad, audio)
  }

  // Padding only extends segments, and keeps them apart and inside the audio.
  lemma PaddingKeepsOrder(s: seq<Speech>, r: seq<Speech>, pad: nat, audio: int)
    requires Ordered(s, 0, audio) && |r| == |s|
    requires forall k :: 0 <= k < |r| ==> r[k] == Speech(PaddedStart(s, pad, k), PaddedEnd(s, pad, audio, k))
    ensures forall k :: 0 <= k < |r| ==> r[k].start <= s[k].start && s[k].end <= r[k].end
    ensures Ordered(r, 0, audio)
  {
    forall k | 0 <= k < |r| ensures 0 <= r[k].start <= s[k].start && s[k].end <= r[k].end <= audio {
      if k > 0 { assert s[k - 1].end <= s[k].start; }
      if k + 1 < |s| { assert s[k].end <= s[k + 1].start; }
    }
    forall k | 0 < k < |r| ensures r[k - 1].end <= r[k].start {
      assert s[k - 1].end <= s[k].start;
    }
    NeighboursSuffice(r, audio);
  }

  lemma {:induction false} NeighboursSuffice(r: seq<Speech>, hi: int)
    requires forall k :: 0 <= k < |r| ==> 0 <= r[k].start <= r[k].end <= hi
    requires forall k :: 0 < k < |r| ==> r[k - 1].end <= r[k].start
    ensures Ordered(r, 0, hi)
  {
    if r != [] {
      var q := r[..|r| - 1];
      NeighboursSuffice(q, hi);
      forall j, k | 0 <= j < k < |r| ensures r[j].end <= r[k].start {
        if k == |r| - 1 {
          if j < k - 1 { assert q[j].end <= q[k - 1].start; }
        } else {
          assert q[j].end <= q[k].start;
        }
      }
    }
  }

  // ---- which samples the padding adds ----

  // at most pad samples from a segment
  ghost predicate Near(s: seq<Speech>, pad: nat, audio: int, x: int) {
    0 <= x < audio && exists k :: 0 <= k < |s| && NearTo(s[k], pad, x)
  }

  predicate NearTo(a: Speech, pad: nat, x: int) { a.start - pad <= x < a.end + pad }

  // the sample that two halves of an odd gap leave in the middle
  ghost predicate Middle(s: seq<Speech>, pad: nat, x: int) {
    exists k :: 0 <= k < |s| - 1 && MiddleOf(s, pad, k, x)
  }

  predicate MiddleOf(s: seq<Speech>, pad: nat, k: nat, x: int)
    requires k + 1 < |s|
  {
    s[k + 1].start - s[k].end < 2 * pad && s[k + 1].start - x - 1 == x - s[k].end
  }

  ghost predicate IsPadded(s: seq<Speech>, r: seq<Speech>, pad: nat, audio: int) {
    |r| == |s| && forall k :: 0 <= k < |r| ==> r[k] == Speech(PaddedStart(s, pad, k), PaddedEnd(s, pad, audio, k))
  }

  // what lies to the right of segment k, at most pad away, is covered or a middle
  lemma {:induction false} RightCovered(s: seq<Speech>, r: seq<Speech>, pad: nat, audio: int, k: nat, x: int)
    requires Ordered(s, 0, audio) && IsPadded(s, r, pad, audio) && k < |s| && x < audio
    requires s[k].start <= x < s[k].end + pad
    ensures InSome(r, x) || Middle(s, pad, x)
    decreases |s| - k
  {
    if x < r[k].end {
      assert r[k].start <= x < r[k].end;
    } else if k + 1 < |s| {
      if x >= r[k + 1].start {
        if x < s[k + 1].end {
          assert r[k + 1].start <= x < r[k + 1].end;
        } else {
          RightCovered(s, r, pad, audio, k + 1, x);
        }
      } else {
        assert MiddleOf(s, pad, k, x);
      }
    }
  }

  lemma {:induction false} LeftCovered(s: seq<Speech>, r: seq<Speech>, pad: nat, audio: int, k: nat, x: int)
    requires Ordered(s, 0, audio) && IsPadded(s, r, pad, audio) && k < |s| && 0 <= x < s[k].end
    requires s[k].start - pad <= x
    ensures InSome(r, x) || Middle(s, pad, x)
    decreases k
  {
    if x >= r[k].start {
      assert r[k].start <= x < r[k].end;
    } else if k > 0 {
      if x < r[k - 1].end {
        if x >= s[k - 1].start {
          assert r[k - 1].start <= x < r[k - 1].end;
        } else {
          LeftCovered(s, r, pad, audio, k - 1, x);
        }
      } else {
        assert MiddleOf(s, pad, k - 1, x);
      }
    }
  }

  // Padding adds exactly the samples of the audio that are at most pad from a segment, but for the middle
  // of an odd gap that is too small for both sides.
  lemma PaddedExactlyWhen(s: seq<Speech>, r: seq<Speech>, pad: nat, audio: int, x: int)
    requires Ordered(s, 0, audio) && IsPadded(s, r, pad, audio)
    ensures InSome(r, x) <==> Near(s, pad, audio, x) && !Middle(s, pad, x)
  {
    PaddingKeepsOrder(s, r, pad, audio);
    if k :| 0 <= k < |r| && r[k].start <= x < r[k].end { PaddedIsNear(s, r, pad, audio, k, x); }
    if k :| 0 <= x < audio && 0 <= k < |s| && NearTo(s[k], pad, x) {
      hide InSome, Middle, Ordered, IsPadded;
      if x < s[k].end { LeftCovered(s, r, pad, audio, k, x); } else { RightCovered(s, r, pad, audio, k, x); }
    }
  }

  lemma PaddedIsNear(s: seq<Speech>, r: seq<Speech>, pad: nat, audio: int, k: nat, x: int)
    requires Ordered(s, 0, audio) && IsPadded(s, r, pad, audio) && Ordered(r, 0, audio)
    requires k < |s| && r[k].start <= x < r[k].end
    ensures Near(s, pad, audio, x) && !Middle(s, pad, x)
  {
    PaddedWithin(s, r, pad, audio, k);
    forall j | 0 <= j < |s| - 1 ensures !MiddleOf(s, pad, j, x) {
      MiddleOpen(s, r, pad, audio, j, x);
      hide MiddleOf;
      if j < k { assert j + 1 == k || r[j + 1].end <= r[k].start; } else { assert j == k || r[k].end <= r[j].start; }
    }
    assert NearTo(s[k], pad, x);
  }

  lemma PaddedWithin(s: seq<Speech>, r: seq<Speech>, pad: nat, audio: int, k: nat)
    requires Ordered(s, 0, audio) && IsPadded(s, r, pad, audio) && k < |s|
    ensures s[k].start - pad <= r[k].start && r[k].end <= s[k].end + pad
  {
  }

  // the middle of an odd gap is left out by both sides
  lemma MiddleOpen(s: seq<Speech>, r: seq<Speech>, pad: nat, audio: int, j: nat, x: int)
    requires Ordered(s, 0, audio) && IsPadded(s, r, pad, audio) && j + 1 < |s|
    ensures MiddleOf(s, pad, j, x) ==> r[j].end <= x < r[j + 1].start
  {
    assert s[j].end <= s[j + 1].start;
  }

  method Pad(s: seq<Speech>, pad: nat, audio: int) returns (r: seq<Speech>)
    requires Ordered(s, 0, audio)
    ensures |r| == |s|
    ensures forall k :: 0 <= k < |r| ==> r[k] == Speech(PaddedStart(s, pad, k), PaddedEnd(s, pad, audio, k))
  {
    hide PaddedStart, PaddedEnd;
    r := s;
    for i := 0 to |s|
      invariant |r| == |s|
      invariant forall k :: 0 <= k < i ==> r[k] == Speech(PaddedStart(s, pad, k), PaddedEnd(s, pad, audio, k))
      invariant 0 < i < |s| ==> r[i] == Speech(PaddedStart(s, pad, i), s[i].end)
      invariant forall k :: i < k < |s| ==> r[k] == s[k]
      invariant i == 0 ==> r == s
    {
      if i == 0 { r := r[i := Speech(AtLeast0(r[i].start - pad), r[i].end)]; }
      PadRules(s, pad, audio, i);
      if i < |r| - 1 {
        var silence := r[i + 1].start - r[i].end;
        if silence < 2 * pad {
          r := r[i := Speech(r[i].start, r[i].end + silence / 2)];
          r := r[i + 1 := Speech(AtLeast0(r[i + 1].start - silence / 2), r[i + 1].end)];
        } else {
          r := r[i := Speech(r[i].start, AtMost(r[i].end + pad, audio))];
          r := r[i + 1 := Speech(AtLeast0(r[i + 1].start - pad), r[i + 1].end)];
        }
      } else {
        r := r[i := Speech(r[i].start, AtMost(r[i].end + pad, audio))];
      }
    }
  }

  lemma PadRules(s: seq<Speech>, pad: nat, audio: int, k: nat)
    requires k < |s|
    ensures k == 0 ==> PaddedStart(s, pad, k) == AtLeast0(s[k].start - pad)
    ensures k + 1 < |s| ==>
              if s[k + 1].start - s[k].end < 2 * pad
              then PaddedEnd(s, pad, audio, k) == s[k].end + (s[k + 1].start - s[k].end) / 2 &&
                   PaddedStart(s, pad, k + 1) == AtLeast0(s[k + 1].start - (s[k + 1].start - s[k].end) / 2)
              else PaddedEnd(s, pad, audio, k) == AtMost(s[k].end + pad, audio) &&
                   PaddedStart(s, pad, k + 1) == AtLeast0(s[k + 1].start - pad)
    ensures k + 1 == |s| ==> PaddedEnd(s, pad, audio, k) == AtMost(s[k].end + pad, audio)
  {
  }

  // ---- centiseconds ----

  // rounded to the nearest; 160 samples are one centisecond
  // to the nearest centisecond
  function ToCs(samples: nat): (cs: nat)
    ensures -80 < 160 * cs - samples <= 80
  {
    (samples + 80) / 160
  }

  lemma ToCsMonotone(a: nat, b: nat)
    requires a <= b
    ensures ToCs(a) <= ToCs(b)
  {
  }

  // in centiseconds
  datatype Segment = Segment(start: nat, end: nat)

  method SegmentsFromProbs(probs: seq<real>, p: Params, window: nat)
    returns (segments: seq<Segment>, speeches: seq<Speech>)
    requires window > 0 && p.padMs >= 0
    // sorted, apart, inside the audio and long enough, in samples
    ensures Ordered(speeches, 0, SampleOf(window, |probs|))
    ensures forall k :: 0 <= k < |speeches| ==> speeches[k].end - speeches[k].start >= Samples(p.minSpeechMs)
    // exactly what detection, merging, filtering and padding give
    ensures var kept := LongEnough(Merged(Detected(RulesOf(p, window), probs)), Samples(p.minSpeechMs));
            var pad, audio := Samples(p.padMs), SampleOf(window, |probs|);
            && |speeches| == |kept|
            && forall k :: 0 <= k < |kept| ==>
                 speeches[k] == Speech(PaddedStart(kept, pad, k), PaddedEnd(kept, pad, audio, k))
    // no longer than the limit, unless merging puts too much together
    ensures Limited(p, window) && RunsNoLonger(Detected(RulesOf(p, window), probs), MaxSpeech(p, window) + window) ==>
              NoLonger(speeches, SAMPLE_RATE * Truncate(p.maxSpeechS))
    // and rounded
    ensures |segments| == |speeches|
    ensures forall k :: 0 <= k < |segments| ==> segments[k] == Segment(ToCs(speeches[k].start), ToCs(speeches[k].end))
    ensures forall k :: 0 <= k < |segments| ==> segments[k].start <= segments[k].end <= ToCs(SampleOf(window, |probs|))
    ensures forall j, k :: 0 <= j < k < |segments| ==> segments[j].end <= segments[k].start
  {
    var audio := SampleOf(window, |probs|);
    var raw := Scan(probs, p, window);
    var merged := Merge(raw);
    MergedApart(raw, 0, audio);
    var kept := DropShort(merged, Samples(p.minSpeechMs));
    LongEnoughOrdered(merged, Samples(p.minSpeechMs), 0, audio);
    hide Merged, LongEnough, PaddedStart, PaddedEnd, ToCs, SampleOf, Samples, Gap, NoLonger, RunsNoLonger,
         Limited, MaxSpeech, Detected;
    speeches := Pad(kept, Samples(p.padMs), audio);
    if Limited(p, window) && RunsNoLonger(raw, MaxSpeech(p, window) + window) {
      PaddedKeepTheLimit(raw, speeches, p, window, audio);
    }
    PaddingKeepsOrder(kept, speeches, Samples(p.padMs), audio);
    segments := InCentiseconds(speeches, audio);
  }

  method InCentiseconds(speeches: seq<Speech>, audio: nat) returns (segments: seq<Segment>)
    requires Ordered(speeches, 0, audio)
    ensures |segments| == |speeches|
    ensures forall k :: 0 <= k < |segments| ==> segments[k] == Segment(ToCs(speeches[k].start), ToCs(speeches[k].end))
    ensures forall k :: 0 <= k < |segments| ==> segments[k].start <= segments[k].end <= ToCs(audio)
    ensures forall j, k :: 0 <= j < k < |segments| ==> segments[j].end <= segments[k].start
  {
    hide ToCs;
    segments := [];
    for i := 0 to |speeches|
      invariant |segments| == i
      invariant forall k :: 0 <= k < i ==> segments[k] == Segment(ToCs(speeches[k].start), ToCs(speeches[k].end))
    {
      segments := segments + [Segment(ToCs(speeches[i].start), ToCs(speeches[i].end))];
    }
    forall k | 0 <= k < |segments| ensures segments[k].start <= segments[k].end <= ToCs(audio) {
      ToCsMonotone(speeches[k].start, speeches[k].end);
      ToCsMonotone(speeches[k].end, audio);
    }
    forall j, k | 0 <= j < k < |segments| ensures segments[j].end <= segments[k].start {
      ToCsMonotone(speeches[j].end, speeches[k].start);
    }
  }

  // ---- the greatest length ----

  predicate NoLonger(s: seq<Speech>, most: int) { forall k :: 0 <= k < |s| ==> s[k].end - s[k].start <= most }

  // after the frame at sample last: pieces are no longer than a window above the limit, and the
  // open one exceeds it by at most over
  predicate Bounded(r: Rules, b: Book, last: int, over: int) {
    && NoLonger(b.speeches, r.maxSpeech + r.window)
    && 0 <= b.tempEnd <= last && 0 <= b.prevEnd <= last && 0 <= b.nextStart <= last
    && (!b.isSpeech ==> b.tempEnd == b.prevEnd == b.nextStart == 0)
    && (b.isSpeech ==> b.currStart <= last <= b.currStart + r.maxSpeech + over)
    && (b.nextStart > 0 ==> b.currStart + r.window <= b.nextStart)
  }

  lemma NoLongerPush(s: seq<Speech>, a: Speech, most: int)
    requires NoLonger(s, most) && a.end - a.start <= most
    ensures NoLonger(s + [a], most)
  {
  }

  lemma CutBounded(r: Rules, b: Book, curr: int)
    requires r.window > 0 && b.isSpeech && Bounded(r, b, curr, r.window)
    ensures Bounded(r, Cut(b, curr), curr, 0)
  {
    hide NoLonger;
    NoLongerPush(b.speeches, Speech(b.currStart, if b.prevEnd != 0 then b.prevEnd else curr), r.maxSpeech + r.window);
  }

  lemma SilencedBounded(r: Rules, b: Book, curr: int)
    requires r.window > 0 && b.isSpeech && Bounded(r, b, curr, 0)
    ensures Bounded(r, Silenced(r, b, curr), curr, 0)
  {
    hide NoLonger;
    var from := if b.tempEnd == 0 then curr else b.tempEnd;
    NoLongerPush(b.speeches, Speech(b.currStart, from), r.maxSpeech + r.window);
  }

  lemma DecidedBounded(r: Rules, b: Book, prob: real, last: int)
    requires r.window > 0 && Bounded(r, b, last, 0)
    ensures Bounded(r, Decided(r, b, prob, last + r.window), last + r.window, 0)
  {
    hide NoLonger, Cut, Silenced;
    var curr := last + r.window;
    var b1 := if prob >= r.threshold then Resumed(b, curr) else b;
    assert Bounded(r, b1, curr, r.window);
    if b1.isSpeech {
      CutBounded(r, b1, curr);
      var b2 := if curr - b1.currStart > r.maxSpeech then Cut(b1, curr) else b1;
      if b2.isSpeech { SilencedBounded(r, b2, curr); }
    }
  }

  lemma {:induction false} ScannedBounded(r: Rules, probs: seq<real>)
    requires r.window > 0 && probs != []
    ensures Bounded(r, Scanned(r, probs), SampleOf(r.window, |probs| - 1), 0)
  {
    var n := |probs| - 1;
    hide SampleOf, Bounded, Decided;
    if n > 0 {
      NextFrame(r.window, n - 1);
      ScannedBounded(r, probs[..n]);
      DecidedBounded(r, Scanned(r, probs[..n]), probs[n], SampleOf(r.window, n - 1));
    } else {
      NextFrame(r.window, 0);
      FirstBounded(r, probs[0]);
      assert probs[..0] == [];
    }
  }

  lemma FirstBounded(r: Rules, prob: real)
    ensures Bounded(r, Decided(r, Book([], false, 0, 0, 0, 0), prob, 0), 0, 0)
  {
  }

  // No detected piece is longer than the greatest length and one window.
  lemma DetectedNoLonger(r: Rules, probs: seq<real>)
    requires r.window > 0
    ensures NoLonger(Detected(r, probs), r.maxSpeech + r.window)
  {
    if probs != [] {
      ScannedBounded(r, probs);
      NextFrame(r.window, |probs| - 1);
      hide Scanned, SampleOf;
    }
  }

  // Merging changes nothing exactly when no gap is small.
  lemma {:induction false} MergedSameExactlyWhen(s: seq<Speech>)
    ensures Merged(s) == s <==> forall k :: 0 <= k < |s| - 1 ==> Gap(s, k) >= MERGE_GAP
  {
    if |s| >= 2 {
      if Gap(s, 0) < MERGE_GAP {
        assert |Merged(s)| < |s|;
      } else {
        var t := s[1..];
        MergedSameExactlyWhen(t);
        assert s == [s[0]] + t;
        forall k | 0 < k < |s| - 1 ensures Gap(s, k) == Gap(t, k - 1) {}
        assert forall k :: 0 <= k < |t| - 1 ==> Gap(t, k) == Gap(s, k + 1);
      }
    }
  }

  // only small gaps between pieces i and j
  predicate Joined(s: seq<Speech>, i: nat, j: nat)
    requires j < |s|
  {
    forall k :: i <= k < j ==> Gap(s, k) < MERGE_GAP
  }

  predicate RunsNoLonger(s: seq<Speech>, most: int) {
    forall i: nat, j: nat :: i <= j < |s| && Joined(s, i, j) ==> s[j].end - s[i].start <= most
  }

  // A limit survives merging exactly when every run of pieces with only small gaps keeps it.
  lemma {:induction false} MergedNoLongerExactlyWhen(s: seq<Speech>, lo: int, hi: int, most: int)
    requires Ordered(s, lo, hi)
    ensures NoLonger(Merged(s), most) <==> RunsNoLonger(s, most)
    decreases |s|
  {
    if |s| >= 2 {
      hide Joined;
      if Gap(s, 0) < MERGE_GAP {
        var t := [Speech(s[0].start, s[1].end)] + s[2..];
        MergedNoLongerExactlyWhen(t, lo, hi, most);
        RunsOfJoined(s, t, lo, hi, most);
      } else {
        MergedNoLongerExactlyWhen(s[1..], s[0].end, hi, most);
        RunsOfApart(s, most);
        NoLongerFirst(s[0], Merged(s[1..]), most);
      }
    } else if s != [] {
      assert Joined(s, 0, 0);
    }
  }

  lemma NoLongerFirst(a: Speech, s: seq<Speech>, most: int)
    ensures NoLonger([a] + s, most) <==> a.end - a.start <= most && NoLonger(s, most)
  {
    var t := [a] + s;
    assert t[0] == a && t[1..] == s;
    assert forall k :: 0 <= k < |s| ==> t[k + 1] == s[k];
    assert forall k :: 0 < k < |t| ==> t[k] == s[k - 1];
  }

  lemma RunsOfJoined(s: seq<Speech>, t: seq<Speech>, lo: int, hi: int, most: int)
    requires |s| >= 2 && Ordered(s, lo, hi) && Gap(s, 0) < MERGE_GAP
    requires t == [Speech(s[0].start, s[1].end)] + s[2..]
    ensures RunsNoLonger(t, most) <==> RunsNoLonger(s, most)
  {
    hide Joined, Gap, Ordered;
    if RunsNoLonger(t, most) {
      forall i: nat, j: nat | i <= j < |s| && Joined(s, i, j) ensures s[j].end - s[i].start <= most {
        var l, m := RunInJoined(s, t, lo, hi, i, j);
      }
    }
    if RunsNoLonger(s, most) {
      forall i: nat, j: nat | i <= j < |t| && Joined(t, i, j) ensures t[j].end - t[i].start <= most {
        JoinedInFirst(s, t, i, j);
      }
    }
  }

  // a run of s lies in a run of t
  lemma RunInJoined(s: seq<Speech>, t: seq<Speech>, lo: int, hi: int, i: nat, j: nat) returns (l: nat, m: nat)
    requires |s| >= 2 && Ordered(s, lo, hi) && Gap(s, 0) < MERGE_GAP
    requires t == [Speech(s[0].start, s[1].end)] + s[2..] && i <= j < |s| && Joined(s, i, j)
    ensures l <= m < |t| && Joined(t, l, m) && s[j].end - s[i].start <= t[m].end - t[l].start
  {
    JoinedFromFirst(s);
    l, m := if i <= 1 then 0 else i - 1, if j == 0 then 0 else j - 1;
    JoinedInFirst(s, t, l, m);
    hide Joined, Gap;
  }

  lemma JoinedFromFirst(s: seq<Speech>)
    requires |s| >= 2 && Gap(s, 0) < MERGE_GAP
    ensures Joined(s, 0, 0) && Joined(s, 0, 1)
    ensures forall j: nat :: 1 <= j < |s| ==> (Joined(s, 0, j) <==> Joined(s, 1, j))
  {
  }

  lemma JoinedInFirst(s: seq<Speech>, t: seq<Speech>, i: nat, j: nat)
    requires |s| >= 2 && Gap(s, 0) < MERGE_GAP && t == [Speech(s[0].start, s[1].end)] + s[2..] && i <= j < |t|
    ensures Joined(t, i, j) <==> Joined(s, if i == 0 then 0 else i + 1, j + 1)
  {
    assert forall k :: 0 <= k < |t| - 1 ==> Gap(t, k) == Gap(s, k + 1);
    if Joined(t, i, j) {
      forall k | i + 1 <= k < j + 1 ensures Gap(s, k) < MERGE_GAP { assert Gap(t, k - 1) == Gap(s, k); }
    }
  }

  lemma RunsOfApart(s: seq<Speech>, most: int)
    requires |s| >= 2 && Gap(s, 0) >= MERGE_GAP
    ensures RunsNoLonger(s, most) <==> s[0].end - s[0].start <= most && RunsNoLonger(s[1..], most)
  {
    var t := s[1..];
    forall i: nat, j: nat | i <= j < |t| ensures Joined(t, i, j) <==> Joined(s, i + 1, j + 1) {
      JoinedInRest(s, i, j);
    }
    assert Joined(s, 0, 0) && forall j: nat :: 0 < j < |s| ==> !Joined(s, 0, j);
    hide Joined, Gap;
    if RunsNoLonger(s, most) {
      forall i: nat, j: nat | i <= j < |t| && Joined(t, i, j) ensures t[j].end - t[i].start <= most {
        assert Joined(s, i + 1, j + 1);
      }
    }
    if s[0].end - s[0].start <= most && RunsNoLonger(t, most) {
      forall i: nat, j: nat | i <= j < |s| && Joined(s, i, j) ensures s[j].end - s[i].start <= most {
        if i > 0 { assert Joined(t, i - 1, j - 1); }
      }
    }
  }

  lemma JoinedInRest(s: seq<Speech>, i: nat, j: nat)
    requires s != [] && i <= j < |s[1..]|
    ensures Joined(s[1..], i, j) <==> Joined(s, i + 1, j + 1)
  {
    var t := s[1..];
    assert forall k :: 0 <= k < |t| - 1 ==> Gap(t, k) == Gap(s, k + 1);
    if Joined(t, i, j) {
      forall k | i + 1 <= k < j + 1 ensures Gap(s, k) < MERGE_GAP { assert Gap(t, k - 1) == Gap(s, k); }
    }
  }

  // the limit on the length is in force
  predicate Limited(p: Params, window: nat) {
    p.maxSpeechS <= 100000.0 &&
    0 <= SAMPLE_RATE * Truncate(p.maxSpeechS) - window - 2 * Samples(p.padMs) <= INT_MAX
  }

  // The window and the padding taken off the limit are what a cut that is late and padding can add:
  // if no run of detected pieces with only small gaps is longer, no padded segment exceeds the limit.
  lemma PaddedKeepTheLimit(s: seq<Speech>, r: seq<Speech>, p: Params, window: nat, audio: int)
    requires Ordered(s, 0, audio) && p.padMs >= 0 && Limited(p, window)
    requires RunsNoLonger(s, MaxSpeech(p, window) + window)
    requires var kept := LongEnough(Merged(s), Samples(p.minSpeechMs)); var pad := Samples(p.padMs);
             |r| == |kept| && forall k :: 0 <= k < |r| ==>
               r[k] == Speech(PaddedStart(kept, pad, k), PaddedEnd(kept, pad, audio, k))
    ensures NoLonger(r, SAMPLE_RATE * Truncate(p.maxSpeechS))
  {
    var pad, most := Samples(p.padMs), MaxSpeech(p, window) + window;
    var kept := LongEnough(Merged(s), Samples(p.minSpeechMs));
    MergedNoLongerExactlyWhen(s, 0, audio, most);
    MergedApart(s, 0, audio);
    hide Merged, RunsNoLonger;
    forall k | 0 <= k < |r| ensures r[k].end - r[k].start <= most + 2 * pad {
      PaddedAtMost(kept, pad, audio, k);
      assert kept[k] in Merged(s);
    }
  }

  lemma PaddedAtMost(s: seq<Speech>, pad: nat, audio: int, k: nat)
    requires k < |s| && s[k].start >= 0
    ensures PaddedEnd(s, pad, audio, k) - PaddedStart(s, pad, k) <= s[k].end - s[k].start + 2 * pad
  {
  }

  lemma {:induction false} MergedAll(s: seq<Speech>)
    requires s != [] && forall k :: 0 < k < |s| ==> s[k].start - s[k - 1].end < MERGE_GAP
    ensures Merged(s) == [Speech(s[0].start, LastEnd(s))]
    decreases |s|
  {
    if |s| >= 2 {
      var t := [Speech(s[0].start, s[1].end)] + s[2..];
      assert forall k :: 0 < k < |t| ==> t[k] == s[k + 1] && t[k - 1].end == s[k].end;
      MergedAll(t);
    } else {
      assert s == [s[0]];
    }
  }

  // pieces one window apart, from the start of the audio
  predicate OneWindowApart(s: seq<Speech>, window: nat) {
    && (s != [] ==> s[0].start == 0)
    && forall k :: 0 < k < |s| ==> After(s[k - 1], s[k], window)
  }

  predicate After(a: Speech, b: Speech, gap: int) { b.start == a.end + gap }

  // nothing but speech up to the frame at sample last: pieces are cut, and speech restarts one frame later
  predicate Steady(r: Rules, b: Book, last: int) {
    && OneWindowApart(b.speeches, r.window)
    && b.tempEnd == b.prevEnd == b.nextStart == 0
    && (if b.isSpeech then b.currStart == (if b.speeches == [] then 0 else LastEnd(b.speeches) + r.window) &&
                           b.currStart <= last
        else b.speeches != [] && LastEnd(b.speeches) == last)
  }

  lemma DecidedSteady(r: Rules, b: Book, prob: real, last: int)
    requires Steady(r, b, last) && prob >= r.threshold && prob >= r.negThreshold
    ensures Steady(r, Decided(r, b, prob, last + r.window), last + r.window)
  {
  }

  lemma {:induction false} ScannedSteady(r: Rules, probs: seq<real>)
    requires probs != [] && forall k :: 0 <= k < |probs| ==> probs[k] >= r.threshold && probs[k] >= r.negThreshold
    ensures Steady(r, Scanned(r, probs), SampleOf(r.window, |probs| - 1))
  {
    var n := |probs| - 1;
    hide SampleOf, Steady, Decided;
    if n > 0 {
      NextFrame(r.window, n - 1);
      ScannedSteady(r, probs[..n]);
      DecidedSteady(r, Scanned(r, probs[..n]), probs[n], SampleOf(r.window, n - 1));
    } else {
      NextFrame(r.window, 0);
      FirstSteady(r, probs[0]);
      assert probs[..0] == [];
    }
  }

  lemma FirstSteady(r: Rules, prob: real)
    requires prob >= r.threshold && prob >= r.negThreshold
    ensures Steady(r, Decided(r, Book([], false, 0, 0, 0, 0), prob, 0), 0)
  {
  }

  // In a recording that is all speech every cut made for the greatest length is merged back: one
  // segment runs from the start to at most the least speech and one window before the end.
  lemma SteadySpeechIsOneSegment(r: Rules, probs: seq<real>)
    requires 0 < r.window < MERGE_GAP && 0 <= r.minSpeech < SampleOf(r.window, |probs|)
    requires forall k :: 0 <= k < |probs| ==> probs[k] >= r.threshold && probs[k] >= r.negThreshold
    ensures var audio := SampleOf(r.window, |probs|);
            var merged := Merged(Detected(r, probs));
            |merged| == 1 && merged[0].start == 0 && audio - r.minSpeech - r.window <= merged[0].end <= audio
  {
    var s := Detected(r, probs);
    ScannedSteady(r, probs);
    NextFrame(r.window, |probs| - 1);
    hide Scanned, SampleOf;
    assert OneWindowApart(s, r.window) && s != [];
    MergedAll(s);
  }

  // Such a recording of a minute, with a greatest length of ten seconds: 32 ms windows.
  lemma LimitIsExceeded(probs: seq<real>)
    requires |probs| == 1875 && forall k :: 0 <= k < |probs| ==> probs[k] == 1.0
    ensures var r := RulesOf(Params(0.5, 250, 100, 10.0, 30), 512);
            r.maxSpeech < 10 * SAMPLE_RATE && !NoLonger(Merged(Detected(r, probs)), 59 * SAMPLE_RATE)
  {
    var r := RulesOf(Params(0.5, 250, 100, 10.0, 30), 512);
    assert SampleOf(512, 1875) == 60 * SAMPLE_RATE;
    SteadySpeechIsOneSegment(r, probs);
    hide Merged, Detected;
  }
}
