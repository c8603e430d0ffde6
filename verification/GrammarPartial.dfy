// Partial sequences: what a class can say about a character whose last bytes are still missing.
module GrammarPartial {
  import opened Bytes
  import opened GrammarRules
  import opened GrammarReject
  import opened Utf8Decode

  // ---- the characters that begin with some bytes ----

  // the first bytes of a character, some of which are still missing
  predicate Open(pre: seq<Byte>) {
    0 < |pre| <= Missing(pre[0]) && forall k :: 0 < k < |pre| ==> Continuation(pre[k])
  }

  // the decoder's state behind these bytes
  function Read(pre: seq<Byte>): (p: Partial)
    requires Open(pre)
    ensures AllLegal(Partial(0, 0), pre) && p == StateAfter(Partial(0, 0), pre)
    ensures p.remain == Missing(pre[0]) + 1 - |pre|
    decreases |pre|
  {
    var n := |pre| - 1;
    assert pre[..n] + [pre[n]] == pre;
    InTwoPieces(Partial(0, 0), pre[..n], [pre[n]]);
    if n == 0 then
      Partial(LeadBits(pre[0]), Missing(pre[0]))
    else
      var p := Read(pre[..n]);
      Partial(p.value * 64 + pre[n] % 64, p.remain - 1)
  }

  // c is a character of RFC 3629 whose encoding begins with these bytes
  predicate Completes(pre: seq<Byte>, c: nat) { 0 < c && Scalar(c) && pre <= Encode(c) }

  // the least code point that needs n bytes behind its first one
  function Least(n: nat): nat {
    match n
    case 0 => 1
    case 1 => 0x80
    case 2 => 0x800
    case _ => 0x1_0000
  }

  // the characters that begin with these bytes lie between Lowest and Highest, none when these are
  // the wrong way round: an overlong form, a surrogate, or beyond the last code point
  function Lowest(pre: seq<Byte>): nat
    requires Open(pre)
  {
    var low := Read(pre).value * Pow64(Read(pre).remain);
    if low < Least(Missing(pre[0])) then Least(Missing(pre[0])) else low
  }

  function Highest(pre: seq<Byte>): int
    requires Open(pre)
  {
    var high := PartialHigh(Read(pre));
    if 0xD800 <= high < 0xE000 then 0xD7FF else if high > 0x10_FFFF then 0x10_FFFF else high
  }

  lemma Powers()
    ensures Pow64(0) == 1 && Pow64(1) == 64 && Pow64(2) == 0x1000 && Pow64(3) == 0x4_0000
  {
  }

  lemma FirstByte(b: Byte, c: nat)
    requires Missing(b) > 0 && 0 < c < 0x11_0000
    ensures Encode(c)[0] == b <==> |Encode(c)| == Missing(b) + 1 && c / Pow64(Missing(b)) == LeadBits(b)
  {
    Powers();
    hide Pow64;
  }

  lemma LaterByte(c: nat, k: nat)
    requires 0 < c < 0x11_0000 && 0 < k < |Encode(c)|
    ensures Encode(c)[k] == 0x80 + c / Pow64(|Encode(c)| - 1 - k) % 64
  {
    Powers();
    hide Pow64;
  }

  lemma NextBits(c: nat, r: nat)
    requires r < 3
    ensures c / Pow64(r) == c / Pow64(r + 1) * 64 + c / Pow64(r) % 64
  {
    Powers();
    SplitBits(c);
    hide Pow64;
  }

  // the bytes fix the length and the leading bits
  lemma {:induction false} PrefixBits(pre: seq<Byte>, c: nat)
    requires Open(pre) && 0 < c < 0x11_0000
    ensures pre <= Encode(c) <==>
            |Encode(c)| == Missing(pre[0]) + 1 && c / Pow64(Read(pre).remain) == Read(pre).value
    decreases |pre|
  {
    var n := |pre| - 1;
    FirstByte(pre[0], c);
    if n > 0 {
      var r := Read(pre).remain;
      PrefixBits(pre[..n], c);
      assert pre <= Encode(c) <==> pre[..n] <= Encode(c) && n < |Encode(c)| && pre[n] == Encode(c)[n];
      hide Encode, Pow64, Missing, LeadBits;
      NextBits(c, r);
      if n < |Encode(c)| { LaterByte(c, n); }
      assert pre[n] == 0x80 + pre[n] % 64;
    }
  }

  lemma Quotient(c: nat, q: nat, v: nat)
    requires q > 0
    ensures c / q == v <==> v * q <= c < v * q + q
  {
    var d := c / q;
    assert c == d * q + c % q;
    ProductOrder(d, v, q);
    ProductOrder(v, d, q);
  }

  lemma ProductOrder(d: nat, v: nat, q: nat)
    ensures d < v ==> d * q + q <= v * q
  {
    if d < v {
      var more := v - d - 1;
      assert v * q == (d + 1 + more) * q == d * q + q + more * q;
    }
  }

  lemma EncodedLength(c: nat)
    requires 0 < c < 0x11_0000
    ensures var n := |Encode(c)| - 1; 0 <= n <= 3 && Least(n) <= c && (n < 3 ==> c < Least(n + 1))
  {
  }

  lemma {:induction false} ValueBounds(pre: seq<Byte>)
    requires Open(pre)
    ensures var p := Read(pre); var n := Missing(pre[0]);
            && 1 <= p.remain <= n <= 3
            && (n == 1 ==> p.value < 0x20) && (n == 2 ==> p.value < if p.remain == 2 then 0x10 else 0x400)
    decreases |pre|
  {
    var n := |pre| - 1;
    if n > 0 { ValueBounds(pre[..n]); }
  }

  // The window that the code computes, without overlong forms, surrogates and what lies beyond the
  // last code point, is the set of characters that the bytes can still become.
  lemma WindowIsCompletions(pre: seq<Byte>, c: nat)
    requires Open(pre)
    ensures Completes(pre, c) <==> Lowest(pre) <= c <= Highest(pre)
  {
    ValueBounds(pre);
    Powers();
    var p := Read(pre);
    if 0 < c < 0x11_0000 {
      PrefixBits(pre, c);
      EncodedLength(c);
      Quotient(c, Pow64(p.remain), p.value);
    }
    hide Read, Pow64, Missing, Encode;
  }

  // ---- the window ----

  // some range that is not empty meets the window
  predicate ProperRangesMeet(rs: seq<Range>, low: int, high: int) {
    exists i :: 0 <= i < |rs| && rs[i].lower <= rs[i].upper && rs[i].lower <= high && low <= rs[i].upper
  }

  predicate CoverWindow(rs: seq<Range>, low: nat, high: int) {
    forall c: nat :: low <= c <= high ==> InRanges(rs, c)
  }

  lemma MeetsIffShared(rs: seq<Range>, low: nat, high: int)
    requires low <= high
    ensures ProperRangesMeet(rs, low, high) <==> exists c: nat :: low <= c <= high && InRanges(rs, c)
  {
    if i :| 0 <= i < |rs| && rs[i].lower <= rs[i].upper && rs[i].lower <= high && low <= rs[i].upper {
      var c := if low < rs[i].lower then rs[i].lower else low;
      assert rs[i].lower <= c <= rs[i].upper;
      assert low <= c <= high && InRanges(rs, c);
    }
    if c: nat :| low <= c <= high && InRanges(rs, c) {
      var i :| 0 <= i < |rs| && rs[i].lower <= c <= rs[i].upper;
      assert rs[i].lower <= high && low <= rs[i].upper;
    }
  }

  // the code's window is never too small, and the code only gives up where nothing can be completed
  lemma WindowSuffices(pre: seq<Byte>)
    requires Open(pre) && Lowest(pre) <= Highest(pre)
    ensures var p := Read(pre);
            !HopelessPartial(p) && PartialLow(p) <= Lowest(pre) && Highest(pre) <= PartialHigh(p)
  {
    ValueBounds(pre);
    Powers();
    hide Read, Pow64;
  }

  // ---- when a partial match is right ----

  // some character that begins with these bytes is in the class
  ghost predicate CanComplete(s: Symbol, pre: seq<Byte>)
    requires s.Class?
  {
    exists c :: Completes(pre, c) && Matches(s, c)
  }

  ghost predicate WindowMet(s: Symbol, pre: seq<Byte>)
    requires Open(pre)
    requires s.Class?
  {
    RangesMeet(s.ranges, PartialLow(Read(pre)), PartialHigh(Read(pre)))
  }

  // - bytes that no character begins with are refused: the code sees an overlong two-byte form, or
  //   the class misses the window, or a negated class meets it;
  // - otherwise, a class that meets the window does so inside the characters that the bytes can
  //   become, and not only with a range that is reversed;
  // - and a negated class misses the window or contains none of these characters.
  ghost predicate Decides(s: Symbol, pre: seq<Byte>)
    requires s.Class? && Open(pre)
  {
    if Lowest(pre) > Highest(pre) then
      HopelessPartial(Read(pre)) || (WindowMet(s, pre) <==> s.negated)
    else
      !WindowMet(s, pre) ||
      if s.negated then CoverWindow(s.ranges, Lowest(pre), Highest(pre))
      else ProperRangesMeet(s.ranges, Lowest(pre), Highest(pre))
  }

  // The documented equivalence holds exactly for these classes and bytes.
  lemma PartialMatchExactWhen(s: Symbol, pre: seq<Byte>)
    requires s.Class? && Open(pre)
    ensures (MatchPartial(s, Read(pre)) <==> CanComplete(s, pre)) <==> Decides(s, pre)
  {
    hide Open, Lowest, Highest, PartialLow, PartialHigh, HopelessPartial, Completes, InRanges, Read;
    var low, high := Lowest(pre), Highest(pre);
    forall c: nat ensures Completes(pre, c) <==> low <= c <= high { WindowIsCompletions(pre, c); }
    if low <= high {
      WindowSuffices(pre);
      MeetsIffShared(s.ranges, low, high);
      WiderMet(s.ranges, low, high, PartialLow(Read(pre)), PartialHigh(Read(pre)));
      hide RangesMeet, ProperRangesMeet;
      CanCompleteIff(s, pre, low, high);
    }
  }

  lemma WiderMet(rs: seq<Range>, low: nat, high: int, low': int, high': int)
    requires low' <= low <= high <= high'
    ensures ProperRangesMeet(rs, low, high) ==> RangesMeet(rs, low', high')
    ensures CoverWindow(rs, low, high) ==> RangesMeet(rs, low', high')
  {
    if CoverWindow(rs, low, high) { assert InRanges(rs, low); }
  }

  lemma CanCompleteIff(s: Symbol, pre: seq<Byte>, low: nat, high: int)
    requires s.Class? && forall c: nat :: Completes(pre, c) <==> low <= c <= high
    ensures CanComplete(s, pre) <==>
            if s.negated then !CoverWindow(s.ranges, low, high)
            else exists c: nat :: low <= c <= high && InRanges(s.ranges, c)
  {
    hide Completes, InRanges;
    if s.negated && !CoverWindow(s.ranges, low, high) {
      var c: nat :| low <= c <= high && !InRanges(s.ranges, c);
      assert Completes(pre, c) && Matches(s, c);
    }
    if !s.negated && exists c: nat :: low <= c <= high && InRanges(s.ranges, c) {
      var c: nat :| low <= c <= high && InRanges(s.ranges, c);
      assert Completes(pre, c) && Matches(s, c);
    }
  }

  // A match can be completed when the characters fill the code's window and no range is reversed.
  lemma PartialMatchSound(s: Symbol, pre: seq<Byte>)
    requires s.Class? && Open(pre) && Lowest(pre) <= Highest(pre)
    requires Lowest(pre) == PartialLow(Read(pre)) && Highest(pre) == PartialHigh(Read(pre))
    requires forall i :: 0 <= i < |s.ranges| ==> s.ranges[i].lower <= s.ranges[i].upper
    requires MatchPartial(s, Read(pre))
    ensures CanComplete(s, pre)
  {
    PartialMatchExactWhen(s, pre);
    hide Lowest, Highest, PartialLow, PartialHigh, Read;
  }

  // They do, except for bytes that no character begins with and for the first bytes ED and F4, whose
  // window also holds the surrogates and what lies beyond the last code point.
  lemma WindowIsFull(pre: seq<Byte>)
    requires Open(pre) && Lowest(pre) <= Highest(pre) && pre != [0xED] && pre != [0xF4]
    ensures Lowest(pre) == PartialLow(Read(pre)) && Highest(pre) == PartialHigh(Read(pre))
  {
    ValueBounds(pre);
    if |pre| == 1 { SingleByte(pre); }
    hide Pow64, Read, Open, Missing;
    FullWindow(Read(pre).value, Read(pre).remain, Missing(pre[0]));
  }

  lemma SingleByte(pre: seq<Byte>)
    requires Open(pre) && |pre| == 1
    ensures Read(pre) == Partial(LeadBits(pre[0]), Missing(pre[0]))
    ensures Read(pre) == Partial(0xD, 2) ==> pre == [0xED]
    ensures Read(pre) == Partial(4, 3) ==> pre == [0xF4]
  {
    assert pre == [pre[0]];
  }

  // the value read so far and the bytes missing, of n behind the first
  lemma FullWindow(v: nat, r: nat, n: nat)
    requires 1 <= r <= n <= 3 && (n == 1 ==> v < 0x20) && (n == 2 ==> v < if r == 2 then 0x10 else 0x400)
    requires (v, r, n) != (0xD, 2, 2) && (v, r, n) != (4, 3, 3)
    ensures var low := v * Pow64(r);
            var high := low + Pow64(r) - 1;
            var least := if low < Least(n) then Least(n) else low;
            var most := if 0xD800 <= high < 0xE000 then 0xD7FF else if high > 0x10_FFFF then 0x10_FFFF else high;
            least <= most ==> most == high && least == PartialLow(Partial(v, r))
  {
    Powers();
    hide Pow64;
  }

  // [^e-acute] and the first byte of e-acute: refused, although e-grave would do
  lemma NegatedClassRefusesTooMuch()
    ensures var s := Class(true, [Range(0xE9, 0xE9)]);
            Open([0xC3]) && !MatchPartial(s, Read([0xC3])) && CanComplete(s, [0xC3])
  {
    var s := Class(true, [Range(0xE9, 0xE9)]);
    Powers();
    assert s.ranges[0].lower <= PartialHigh(Read([0xC3])) && PartialLow(Read([0xC3])) <= s.ranges[0].upper;
    assert Encode(0xE8) == [0xC3, 0xA8];
    assert Completes([0xC3], 0xE8) && Matches(s, 0xE8);
  }

  // the first bytes of an overlong form: matched, although no character begins with them
  lemma OverlongMatches()
    ensures var s := Class(false, [Range(0x144, 0x144)]);
            Open([0xE0, 0x85]) && MatchPartial(s, Read([0xE0, 0x85])) && !CanComplete(s, [0xE0, 0x85])
  {
    var s, pre: seq<Byte> := Class(false, [Range(0x144, 0x144)]), [0xE0, 0x85];
    Powers();
    assert pre[..1] == [0xE0];
    assert Read([0xE0]) == Partial(0, 2) && Read(pre) == Partial(5, 1);
    assert s.ranges[0].lower <= PartialHigh(Read(pre)) && PartialLow(Read(pre)) <= s.ranges[0].upper;
    forall c ensures !Completes(pre, c) { WindowIsCompletions(pre, c); }
  }
}
