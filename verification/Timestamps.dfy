// Timestamp tokens: what may be sampled, how decoders advance, and why the audio is used up.
module Timestamps {

  const CHUNK := 3000
  const DELTA_MIN := 10

  // text tokens lie below eot; timestamp i is beg + i
  datatype Vocab = Vocab(eot: nat, beg: nat, size: nat)

  predicate ValidVocab(v: Vocab) { v.eot < v.beg < v.size }

  // maxInitial: the latest initial timestamp, -1 for no limit
  datatype Params = Params(noTimestamps: bool, singleSegment: bool, maxTokens: int, maxInitial: int)

  // the part of a decoder that beam search copies
  datatype Track = Track(tokens: seq<nat>, seekDelta: int, hasTs: bool, resultLen: nat)

  function Fresh(): Track { Track([], CHUNK, false, 0) }

  // ---- which tokens the timestamp rules mask ----

  predicate LastWasTs(v: Vocab, t: Track) { |t.tokens| > 0 && t.tokens[|t.tokens| - 1] >= v.beg }

  predicate PenultimateWasTs(v: Vocab, t: Track) { |t.tokens| < 2 || t.tokens[|t.tokens| - 2] >= v.beg }

  predicate TsMasked(v: Vocab, p: Params, t: Track, id: nat) {
    || (LastWasTs(v, t) && PenultimateWasTs(v, t) && v.beg <= id)
    || (LastWasTs(v, t) && !PenultimateWasTs(v, t) && id < v.eot)
    || (t.tokens == [] && p.maxInitial >= 0 && v.beg + p.maxInitial + 1 <= id)
    || (t.hasTs && v.beg <= id < v.beg + t.seekDelta / 2)
  }

  // masks ids from lo to hi - 1
  method MaskRange(masked: array<bool>, lo: nat, hi: int)
    requires hi <= masked.Length
    modifies masked
    ensures forall i :: 0 <= i < masked.Length ==> masked[i] == (old(masked[i]) || lo <= i < hi)
  {
    var i := lo;
    while i < hi
      invariant lo <= i && (if lo <= hi then i <= hi else i == lo)
      invariant forall k :: 0 <= k < masked.Length ==> masked[k] == (old(masked[k]) || lo <= k < i)
    {
      masked[i] := true;
      i := i + 1;
    }
  }

  // adds the timestamp rules to whatever has been masked before
  method MaskTimestamps(v: Vocab, p: Params, t: Track, masked: array<bool>)
    requires ValidVocab(v) && masked.Length == v.size && (t.hasTs ==> v.beg + t.seekDelta / 2 <= v.size)
    modifies masked
    ensures forall i :: 0 <= i < masked.Length ==> masked[i] == (old(masked[i]) || TsMasked(v, p, t, i))
  {
    var lastWasTs := |t.tokens| > 0 && t.tokens[|t.tokens| - 1] >= v.beg;
    var penultimateWasTs := |t.tokens| < 2 || t.tokens[|t.tokens| - 2] >= v.beg;
    if lastWasTs {
      if penultimateWasTs {
        MaskRange(masked, v.beg, v.size);
      } else {
        MaskRange(masked, 0, v.eot);
      }
    }
    if t.tokens == [] && p.maxInitial >= 0 { MaskRange(masked, v.beg + p.maxInitial + 1, v.size); }
    if t.hasTs { MaskRange(masked, v.beg, v.beg + t.seekDelta / 2); }
  }

  // ---- what every sampled sequence obeys ----

  predicate TsSorted(v: Vocab, tokens: seq<nat>) {
    forall a, b :: 0 <= a < b < |tokens| && tokens[a] >= v.beg && tokens[b] >= v.beg ==> tokens[a] <= tokens[b]
  }

  predicate NoThreeTs(v: Vocab, tokens: seq<nat>) {
    forall k :: 0 <= k && k + 2 < |tokens| ==> tokens[k] < v.beg || tokens[k + 1] < v.beg || tokens[k + 2] < v.beg
  }

  // a timestamp is followed by another, by the end or by a special token, unless one came right before
  predicate TsPaired(v: Vocab, tokens: seq<nat>) {
    forall k :: 0 < k && k + 1 < |tokens| && tokens[k - 1] < v.beg <= tokens[k] ==> tokens[k + 1] >= v.eot
  }

  // the latest timestamp after the first frame, beg if there is none
  function LatestTs(v: Vocab, tokens: seq<nat>): (r: nat)
    ensures r >= v.beg
  {
    if tokens == [] then v.beg
    else if tokens[|tokens| - 1] > v.beg then tokens[|tokens| - 1]
    else LatestTs(v, tokens[..|tokens| - 1])
  }

  lemma {:induction false} LatestIsGreatest(v: Vocab, tokens: seq<nat>)
    requires TsSorted(v, tokens)
    ensures forall k :: 0 <= k < |tokens| && tokens[k] >= v.beg ==> tokens[k] <= LatestTs(v, tokens)
    ensures LatestTs(v, tokens) > v.beg ==> LatestTs(v, tokens) in tokens
  {
    if tokens != [] && tokens[|tokens| - 1] <= v.beg { LatestIsGreatest(v, tokens[..|tokens| - 1]); }
  }

  predicate InVocab(v: Vocab, tokens: seq<nat>) { forall k :: 0 <= k < |tokens| ==> tokens[k] < v.size }

  predicate Ordered(v: Vocab, tokens: seq<nat>) {
    InVocab(v, tokens) && TsSorted(v, tokens) && NoThreeTs(v, tokens) && TsPaired(v, tokens)
  }

  // a decoder that is still sampling: the window advance is the latest timestamp
  ghost predicate Sampling(v: Vocab, t: Track) {
    && Ordered(v, t.tokens) && t.resultLen <= |t.tokens|
    && t.hasTs == (LatestTs(v, t.tokens) > v.beg)
    && t.seekDelta == (if t.hasTs then 2 * (LatestTs(v, t.tokens) - v.beg) else CHUNK)
    && ResultHasLatest(v, t)
  }

  // the text kept so far reaches to the latest timestamp
  ghost predicate ResultHasLatest(v: Vocab, t: Track) {
    t.resultLen <= |t.tokens| &&
    (LatestTs(v, t.tokens) > v.beg ==> LatestTs(v, t.tokens[..t.resultLen]) == LatestTs(v, t.tokens))
  }

  // the window moves on to the latest timestamp, or by the whole chunk
  ghost predicate DeltaIs(v: Vocab, t: Track) {
    t.seekDelta == CHUNK || (LatestTs(v, t.tokens) > v.beg && t.seekDelta == 2 * (LatestTs(v, t.tokens) - v.beg))
  }

  // one token more, which is kept if it is a timestamp
  lemma ResultAfter(v: Vocab, t: Track, id: nat, len: nat)
    requires ResultHasLatest(v, t) && (len == |t.tokens| + 1 || (len == t.resultLen && id <= v.beg))
    ensures ResultHasLatest(v, t.(tokens := t.tokens + [id], resultLen := len))
  {
    var tokens := t.tokens + [id];
    LatestAfter(v, t.tokens, id);
    if len == |t.tokens| + 1 { assert tokens[..len] == tokens; } else { assert tokens[..len] == t.tokens[..len]; }
  }

  lemma LatestAfter(v: Vocab, tokens: seq<nat>, id: nat)
    ensures LatestTs(v, tokens + [id]) == if id > v.beg then id else LatestTs(v, tokens)
  {
    assert (tokens + [id])[..|tokens|] == tokens;
  }

  lemma SortedAfter(v: Vocab, p: Params, t: Track, id: nat)
    requires ValidVocab(v) && Sampling(v, t) && !TsMasked(v, p, t, id)
    ensures TsSorted(v, t.tokens + [id]) && (id > v.beg ==> LatestTs(v, t.tokens) <= id)
  {
    LatestIsGreatest(v, t.tokens);
    hide LatestTs, NoThreeTs, TsPaired;
  }

  lemma GroupedAfter(v: Vocab, p: Params, t: Track, id: nat)
    requires Ordered(v, t.tokens) && !TsMasked(v, p, t, id)
    ensures NoThreeTs(v, t.tokens + [id]) && TsPaired(v, t.tokens + [id])
  {
    hide TsSorted;
  }

  // What any unmasked token does to the sequence: timestamps stay sorted and paired, never three in a
  // row, and the latest one never goes back.
  lemma UnmaskedKeepsOrder(v: Vocab, p: Params, t: Track, id: nat)
    requires ValidVocab(v) && Sampling(v, t) && id < v.size && !TsMasked(v, p, t, id)
    ensures Ordered(v, t.tokens + [id])
    ensures LatestTs(v, t.tokens + [id]) == if id > v.beg then id else LatestTs(v, t.tokens)
    ensures LatestTs(v, t.tokens) <= LatestTs(v, t.tokens + [id])
    ensures t.tokens == [] && p.maxInitial >= 0 ==> id <= v.beg + p.maxInitial
  {
    SortedAfter(v, p, t, id);
    GroupedAfter(v, p, t, id);
    LatestAfter(v, t.tokens, id);
    hide LatestTs, TsSorted, NoThreeTs, TsPaired;
  }

  // The rules mask exactly the tokens that would put a timestamp before an earlier one, make a third one
  // in a row or a second one at the start, leave one without a partner, or start too late.
  lemma MaskedExactlyWhen(v: Vocab, p: Params, t: Track, id: nat)
    requires ValidVocab(v) && Sampling(v, t) && id < v.size
    ensures TsMasked(v, p, t, id) <==>
            var next := t.tokens + [id];
            || !TsSorted(v, next) || !NoThreeTs(v, next) || !TsPaired(v, next)
            || (|next| == 2 && next[0] >= v.beg && next[1] >= v.beg)
            || (|next| == 1 && p.maxInitial >= 0 && id > v.beg + p.maxInitial)
  {
    var next, n := t.tokens + [id], |t.tokens|;
    LatestIsGreatest(v, t.tokens);
    if !TsMasked(v, p, t, id) {
      SortedAfter(v, p, t, id);
      GroupedAfter(v, p, t, id);
    } else {
      assert next[n] == id && (n > 0 ==> next[n - 1] == t.tokens[n - 1]) && (n > 1 ==> next[n - 2] == t.tokens[n - 2]);
      if t.hasTs && v.beg <= id < v.beg + t.seekDelta / 2 {
        LatestInside(v, t.tokens);
        var k :| 0 <= k < n && t.tokens[k] == LatestTs(v, t.tokens);
        assert next[k] == t.tokens[k] && next[k] > next[n];
      }
    }
  }

  // a timestamp behind the first frame is among the tokens
  lemma LatestInside(v: Vocab, tokens: seq<nat>)
    requires TsSorted(v, tokens) && LatestTs(v, tokens) > v.beg
    ensures exists k :: 0 <= k < |tokens| && tokens[k] == LatestTs(v, tokens)
  {
    LatestIsGreatest(v, tokens);
  }

  // ---- one decoder ----

  class Decoder {
    var track: Track
    var completed: bool
    var failed: bool

    constructor ()
      ensures track == Fresh() && !completed && !failed
    {
      track := Fresh();
      completed, failed := false, false;
    }

    ghost predicate Live()
      reads this
    {
      !completed && !failed
    }

    // whatever happens to a decoder, its window advance is at least 2
    ghost predicate Valid(v: Vocab)
      reads this
    {
      ValidVocab(v) && track.seekDelta >= 2 && Ordered(v, track.tokens) && track.resultLen <= |track.tokens| &&
      DeltaIs(v, track) && ResultHasLatest(v, track) && (Live() ==> Sampling(v, track))
    }

    // takes a candidate: a parent's track and a token that the parent could sample
    method Take(v: Vocab, p: Params, parent: Track, id: nat)
      requires Live() && ValidVocab(v) && Sampling(v, parent) && id < v.size && !TsMasked(v, p, parent, id)
      modifies this
      ensures Live() && track == parent.(tokens := parent.tokens + [id])
    {
      track := parent.(tokens := parent.tokens + [id]);
    }
  }

  // where the latest timestamp would move the window
  function Delta(v: Vocab, tokens: seq<nat>): int {
    if LatestTs(v, tokens) > v.beg then 2 * (LatestTs(v, tokens) - v.beg) else CHUNK
  }

  // token i is the last: end of text, enough tokens, or end of the audio
  predicate Ends(v: Vocab, p: Params, tokens: seq<nat>, i: nat, seek: int, seekEnd: int)
    requires i < |tokens|
  {
    || tokens[i] == v.eot || (p.maxTokens > 0 && i >= p.maxTokens)
    || (LatestTs(v, tokens) > v.beg && seek + Delta(v, tokens) + DELTA_MIN >= seekEnd)
  }

  // the step after sampling, at token i of at most max; back tells that the decoder failed because
  // its timestamps went back
  method Update(v: Vocab, p: Params, d: Decoder, i: nat, max: nat, seek: int, seekEnd: int, ghost parent: Track)
    returns (back: bool)
    requires ValidVocab(v) && d.Live() && Sampling(v, parent) && |parent.tokens| == i && i < max
    requires |d.track.tokens| == i + 1 && d.track == parent.(tokens := d.track.tokens) &&
             d.track.tokens[..i] == parent.tokens
    requires d.track.tokens[i] < v.size && !TsMasked(v, p, parent, d.track.tokens[i])
    modifies d
    ensures d.Valid(v) && !back && d.track.tokens == old(d.track.tokens)
    ensures d.completed && !p.noTimestamps ==> d.track.resultLen > 0
    // it goes on only before the end of text, the limit on tokens and the last 100 ms of the audio
    ensures d.Live() ==> d.track.tokens[i] != v.eot && (p.maxTokens <= 0 || i < p.maxTokens)
    ensures d.Live() && d.track.hasTs ==> seek + d.track.seekDelta + 10 < seekEnd
    // when the decoder ends, and with what
    ensures var id, delta := d.track.tokens[i], Delta(v, d.track.tokens);
            var len := if id > v.beg then i + 1 else parent.resultLen;
            var ends := Ends(v, p, d.track.tokens, i, seek, seekEnd);
            var empty := len == 0 && !p.noTimestamps;
            && (d.completed <==> ends && (empty ==> seek + delta + DELTA_MIN >= seekEnd))
            && (d.failed <==> (ends && !d.completed) || (!ends && i == max - 1 && (len == 0 || delta < CHUNK / 2)))
            && d.track.resultLen == (if d.completed && (empty || p.singleSegment || p.noTimestamps) then i + 1 else len)
            && d.track.seekDelta == (if d.completed && (p.singleSegment || p.noTimestamps) then CHUNK else delta)
  {
    hide LatestTs, Ordered, TsMasked, ResultHasLatest;
    back := false;
    var id := d.track.tokens[i];
    assert d.track.tokens == parent.tokens + [id];
    UnmaskedKeepsOrder(v, p, parent, id);
    ResultFor(v, d.track, parent, id);
    if id > v.beg {
      var seekDelta := 2 * (id - v.beg);
      // going back in time would be a failure
      var t := d.track;
      back := t.hasTs && t.seekDelta > seekDelta && t.resultLen < i;
      if back { assert false; }
      d.track := d.track.(seekDelta := seekDelta, resultLen := i + 1, hasTs := true);
    }
    if id == v.eot || (p.maxTokens > 0 && i >= p.maxTokens) ||
       (d.track.hasTs && seek + d.track.seekDelta + DELTA_MIN >= seekEnd) {
      if d.track.resultLen == 0 && !p.noTimestamps {
        if seek + d.track.seekDelta + DELTA_MIN >= seekEnd {
          d.track := d.track.(resultLen := i + 1);
        } else {
          d.failed := true;
          return;
        }
      }
      if p.singleSegment || p.noTimestamps {
        d.track := d.track.(resultLen := i + 1, seekDelta := CHUNK);
      }
      d.completed := true;
      return;
    }
    // a repetition loop
    if i == max - 1 && (d.track.resultLen == 0 || d.track.seekDelta < CHUNK / 2) {
      d.failed := true;
    }
  }

  lemma ResultFor(v: Vocab, t: Track, parent: Track, id: nat)
    requires ResultHasLatest(v, parent) && t.tokens == parent.tokens + [id]
    ensures forall u: Track ::
              (u.tokens == t.tokens && (u.resultLen == |t.tokens| || (u.resultLen == parent.resultLen && id <= v.beg)))
                ==> ResultHasLatest(v, u)
  {
    ResultAfter(v, parent, id, |t.tokens|);
    if id <= v.beg { ResultAfter(v, parent, id, parent.resultLen); }
  }

  // ---- one window of audio ----

  ghost predicate AllValid(v: Vocab, ds: seq<Decoder>)
    reads set j | 0 <= j < |ds| :: ds[j]
  {
    forall j :: 0 <= j < |ds| ==> ds[j].Valid(v)
  }

  predicate Distinct(ds: seq<Decoder>) { forall j, k :: 0 <= j < k < |ds| ==> ds[j] != ds[k] }

  // the masks before the timestamp rules: anything
  type Premask = (nat, nat) -> seq<bool>

  ghost predicate Parent(v: Vocab, t: Track, i: nat) { Sampling(v, t) && |t.tokens| == i }

  // draws any token that the parent may sample and takes it on
  method Draw(v: Vocab, p: Params, d: Decoder, parent: Track, mask: seq<bool>, i: nat, max: nat, seek: int,
    seekEnd: int)
    returns (stuck: bool)
    requires d.Valid(v) && d.Live() && Parent(v, parent, i) && i < max && |mask| == v.size
    modifies d
    ensures d.Valid(v) && (stuck || |d.track.tokens| == i + 1)
  {
    var masked := new bool[v.size](k requires 0 <= k < |mask| => mask[k]);
    LatestInVocab(v, parent.tokens);
    MaskTimestamps(v, p, parent, masked);
    hide Ordered, TsMasked, LatestTs;
    if id: nat :| id < v.size && !masked[id] {
      d.Take(v, p, parent, id);
      var _ := Update(v, p, d, i, max, seek, seekEnd, parent);
      stuck := false;
    } else {
      stuck := true;
    }
  }

  lemma {:induction false} LatestInVocab(v: Vocab, tokens: seq<nat>)
    requires ValidVocab(v) && InVocab(v, tokens)
    ensures LatestTs(v, tokens) < v.size
  {
    if tokens != [] && tokens[|tokens| - 1] <= v.beg { LatestInVocab(v, tokens[..|tokens| - 1]); }
  }

  // one token for every live decoder, from its own track or, in beam search, from that of any live one
  method SampleAll(v: Vocab, p: Params, ds: seq<Decoder>, i: nat, max: nat, seek: int, seekEnd: int, pre: Premask,
    beam: bool)
    returns (stuck: bool)
    requires ValidVocab(v) && Distinct(ds) && AllValid(v, ds) && i < max
    requires forall j :: 0 <= j < |ds| && ds[j].Live() ==> |ds[j].track.tokens| == i
    requires forall a, b :: |pre(a, b)| == v.size
    modifies set j | 0 <= j < |ds| :: ds[j]
    ensures AllValid(v, ds)
    ensures !stuck ==> forall j :: 0 <= j < |ds| && ds[j].Live() ==> |ds[j].track.tokens| == i + 1
  {
    stuck := false;
    // the candidates are drawn before any decoder changes
    var parents := Tracks(ds);
    TurnsStart(v, ds, parents, i);
    hide Parent, AllValid, Turns, Decoder.Valid, Decoder.Live;
    for j := 0 to |ds|
      invariant Turns(v, ds, parents, i, j)
    {
      stuck := TakeTurn(v, p, ds, parents, j, i, max, seek, seekEnd, pre, beam);
      if stuck { return; }
    }
    TurnsDone(v, ds, parents, i);
  }

  lemma TurnsStart(v: Vocab, ds: seq<Decoder>, parents: seq<(Track, bool)>, i: nat)
    requires AllValid(v, ds) && |parents| == |ds|
    requires forall k :: 0 <= k < |ds| ==> parents[k] == (ds[k].track, ds[k].Live())
    requires forall j :: 0 <= j < |ds| && ds[j].Live() ==> |ds[j].track.tokens| == i
    ensures Turns(v, ds, parents, i, 0)
    ensures forall k :: 0 <= k < |ds| && parents[k].1 ==> Parent(v, parents[k].0, i)
  {
    hide Sampling, Ordered;
    forall k | 0 <= k < |ds| && parents[k].1 ensures Parent(v, parents[k].0, i) {
      assert ds[k].Valid(v);
    }
  }

  lemma TurnsDone(v: Vocab, ds: seq<Decoder>, parents: seq<(Track, bool)>, i: nat)
    requires |parents| == |ds| && Turns(v, ds, parents, i, |ds|)
    ensures AllValid(v, ds) && forall j :: 0 <= j < |ds| && ds[j].Live() ==> |ds[j].track.tokens| == i + 1
  {
    hide Decoder.Valid, Decoder.Live;
    forall k | 0 <= k < |ds| ensures Drawn(v, ds[k], parents[k].1, i, true) {}
  }

  // the decoders before j have had their turn
  ghost predicate Turns(v: Vocab, ds: seq<Decoder>, parents: seq<(Track, bool)>, i: nat, j: nat)
    requires |parents| == |ds|
    reads set k | 0 <= k < |ds| :: ds[k]
  {
    forall k :: 0 <= k < |ds| ==> Drawn(v, ds[k], parents[k].1, i, k < j)
  }

  // decoder j's turn; finished decoders have none
  method TakeTurn(v: Vocab, p: Params, ds: seq<Decoder>, parents: seq<(Track, bool)>, j: nat, i: nat, max: nat,
                  seek: int, seekEnd: int, pre: Premask, beam: bool)
    returns (stuck: bool)
    requires Distinct(ds) && j < |ds| == |parents| && i < max && Turns(v, ds, parents, i, j)
    requires forall k :: 0 <= k < |ds| && parents[k].1 ==> Parent(v, parents[k].0, i)
    requires forall a, b :: |pre(a, b)| == v.size
    modifies ds[j]
    ensures if stuck then AllValid(v, ds) else Turns(v, ds, parents, i, j + 1)
  {
    assert Drawn(v, ds[j], parents[j].1, i, false);
    stuck := false;
    if parents[j].1 {
      var chosen: nat :| chosen < |ds| && parents[chosen].1 && (!beam ==> chosen == j);
      stuck := Draw(v, p, ds[j], parents[chosen].0, pre(i, chosen), i, max, seek, seekEnd);
    }
    hide Decoder.Valid, Decoder.Live;
    forall k | 0 <= k < |ds| && k != j ensures Drawn(v, ds[k], parents[k].1, i, k < j + 1) {
      assert ds[k] != ds[j] && old(Drawn(v, ds[k], parents[k].1, i, k < j));
    }
  }

  // a decoder before or after its turn
  ghost predicate Drawn(v: Vocab, d: Decoder, wasLive: bool, i: nat, done: bool)
    reads d
  {
    d.Valid(v) && if done then d.Live() ==> |d.track.tokens| == i + 1 else d.Live() <==> wasLive
  }

  method Tracks(ds: seq<Decoder>) returns (r: seq<(Track, bool)>)
    ensures |r| == |ds| && forall k :: 0 <= k < |ds| ==> r[k] == (ds[k].track, ds[k].Live())
  {
    r := [];
    for j := 0 to |ds|
      invariant |r| == j && forall k :: 0 <= k < j ==> r[k] == (ds[k].track, ds[k].Live())
    {
      r := r + [(ds[j].track, !ds[j].completed && !ds[j].failed)];
    }
  }

  // Decodes a window; any of its decoders may be selected. stuck: every token of a decoder was masked.
  method DecodeWindow(v: Vocab, p: Params, decoders: nat, max: nat, seek: int, seekEnd: int, pre: Premask, beam: bool)
    returns (best: Track, stuck: bool)
    requires ValidVocab(v) && decoders > 0
    requires forall a, b :: |pre(a, b)| == v.size
    ensures best.seekDelta >= 2 && Ordered(v, best.tokens) && DeltaIs(v, best)
  {
    hide Ordered, Sampling, TsMasked;
    var ds := NewDecoders(v, decoders);
    hide Decoder.Valid, Distinct;
    var i := 0;
    stuck := false;
    while i < max && !stuck
      invariant 0 <= i && |ds| == decoders && Distinct(ds) && AllValid(v, ds) && fresh(ds)
      invariant !stuck ==> forall k :: 0 <= k < |ds| && ds[k].Live() ==> |ds[k].track.tokens| == i
    {
      stuck := SampleAll(v, p, ds, i, max, seek, seekEnd, pre, beam);
      if forall k :: 0 <= k < |ds| ==> ds[k].completed || ds[k].failed { break; }
      i := i + 1;
    }
    var selected: nat :| selected < |ds|;
    best := Kept(v, ds[selected]);
  }

  method NewDecoders(v: Vocab, decoders: nat) returns (ds: seq<Decoder>)
    requires ValidVocab(v)
    ensures |ds| == decoders && Distinct(ds) && fresh(ds) && AllValid(v, ds)
    ensures forall k :: 0 <= k < |ds| ==> |ds[k].track.tokens| == 0
  {
    ds := [];
    for j := 0 to decoders
      invariant |ds| == j && Distinct(ds) && fresh(ds)
      invariant forall k :: 0 <= k < j ==> ds[k].track == Fresh()
    {
      var d := new Decoder();
      ds := ds + [d];
    }
    forall k | 0 <= k < |ds| ensures ds[k].Valid(v) {
      FreshIsValid(v, ds[k]);
    }
  }

  lemma FreshIsValid(v: Vocab, d: Decoder)
    requires ValidVocab(v) && d.track == Fresh()
    ensures d.Valid(v)
  {
  }

  method Kept(v: Vocab, d: Decoder) returns (best: Track)
    requires d.Valid(v)
    ensures best.seekDelta >= 2 && Ordered(v, best.tokens) && DeltaIs(v, best)
  {
    var t := d.track;
    best := t;
    // only the accumulated transcription of a decoder that has not failed is kept
    if !d.failed {
      best := t.(tokens := t.tokens[..t.resultLen]);
      PrefixOrdered(v, t.tokens, t.resultLen);
    }
  }

  lemma PrefixOrdered(v: Vocab, tokens: seq<nat>, n: nat)
    requires Ordered(v, tokens) && n <= |tokens|
    ensures Ordered(v, tokens[..n])
  {
  }

  // ---- the whole audio ----

  function Advance(v: Vocab, p: Params, t: Track, seek: int, seekEnd: int): int {
    var n := |t.tokens|;
    var maxTokensEnding := p.maxTokens > 0 && !p.singleSegment && n > p.maxTokens;
    if n > 1 && !maxTokensEnding && t.tokens[n - 2] < v.beg && t.tokens[n - 1] > v.beg
    then (if seekEnd - seek < CHUNK then seekEnd - seek else CHUNK)
    else t.seekDelta
  }

  // what is up to each window: how many decoders it has, what is masked before the timestamp rules,
  // and whether it searches with beams
  datatype Choices = Choices(decoders: nat, pre: Premask, beam: bool)

  // a window that has been decoded, and where it starts
  datatype Window = Window(seek: int, best: Track)

  // the kept text ends with a single timestamp behind text
  predicate EndsInOneTimestamp(v: Vocab, tokens: seq<nat>) {
    |tokens| > 1 && tokens[|tokens| - 2] < v.beg && tokens[|tokens| - 1] > v.beg
  }

  // where the window after w starts: behind the whole chunk if the kept text ends in one timestamp and
  // was not ended by the limit on tokens, else where its decoder says: at the latest timestamp of the
  // kept text or behind the whole chunk
  ghost predicate MovesTo(v: Vocab, p: Params, w: Window, seekEnd: int, next: int) {
    var n, left := |w.best.tokens|, seekEnd - w.seek;
    if EndsInOneTimestamp(v, w.best.tokens) && (p.maxTokens <= 0 || p.singleSegment || n <= p.maxTokens)
    then next <= w.seek + 3000 && next <= w.seek + left && (next == w.seek + 3000 || next == w.seek + left)
    else next == w.seek + w.best.seekDelta && DeltaIs(v, w.best)
  }

  // the windows of log follow each other from one seek to the other
  ghost predicate AllMove(v: Vocab, p: Params, log: seq<Window>, seekStart: int, seekEnd: int, seek: int) {
    && (if log == [] then seek == seekStart else log[0].seek == seekStart)
    && forall k :: 0 <= k < |log| ==> Moves(v, p, log, k, seekEnd, seek)
  }

  ghost predicate Moves(v: Vocab, p: Params, log: seq<Window>, k: nat, seekEnd: int, seek: int)
    requires k < |log|
  {
    && Ordered(v, log[k].best.tokens) && log[k].seek + DELTA_MIN < seekEnd
    && MovesTo(v, p, log[k], seekEnd, if k + 1 < |log| then log[k + 1].seek else seek)
  }

  lemma MovesOn(v: Vocab, p: Params, log: seq<Window>, seekStart: int, seekEnd: int, w: Window, next: int)
    requires AllMove(v, p, log, seekStart, seekEnd, w.seek)
    requires Ordered(v, w.best.tokens) && w.seek + DELTA_MIN < seekEnd && MovesTo(v, p, w, seekEnd, next)
    ensures AllMove(v, p, log + [w], seekStart, seekEnd, next)
  {
    hide MovesTo, Ordered;
    var r := log + [w];
    forall k | 0 <= k < |r| ensures Moves(v, p, r, k, seekEnd, next) {
      if k < |log| { assert Moves(v, p, log, k, seekEnd, w.seek); }
    }
  }

  // Whatever is sampled, every window moves on by at least 2, so that the loop ends with less than the
  // least audio left.
  method SeekLoop(v: Vocab, p: Params, max: nat, seekStart: int, seekEnd: int, window: nat -> Choices)
    returns (seek: int, windows: nat, ghost log: seq<Window>)
    requires ValidVocab(v) && forall w :: window(w).decoders > 0
    requires forall w, a, b :: |window(w).pre(a, b)| == v.size
    ensures seek + DELTA_MIN >= seekEnd && seek >= seekStart
    ensures 2 * windows <= seek - seekStart
    // each window starts where the one before it has moved to
    ensures |log| == windows && AllMove(v, p, log, seekStart, seekEnd, seek)
  {
    seek, windows, log := seekStart, 0, [];
    while seek + DELTA_MIN < seekEnd
      invariant seek >= seekStart + 2 * windows && |log| == windows
      invariant AllMove(v, p, log, seekStart, seekEnd, seek)
      decreases seekEnd - seek
    {
      hide Ordered, DeltaIs, AllMove;
      var w := window(windows);
      var best, _ := DecodeWindow(v, p, w.decoders, max, seek, seekEnd, w.pre, w.beam);
      var next := seek + Advance(v, p, best, seek, seekEnd);
      MovesOn(v, p, log, seekStart, seekEnd, Window(seek, best), next);
      log := log + [Window(seek, best)];
      seek := next;
      windows := windows + 1;
    }
  }
}
