// The incremental decoder: text arrives in pieces that may cut a character anywhere.
module Utf8Decode {
  import opened Bytes

  // a C string ends at its first 0
  predicate AtEnd(text: seq<Byte>) { text == [] || text[0] == 0 }

  // continuation bytes that follow a first byte, -1 for a byte that cannot be first
  function Missing(b: Byte): (n: int)
    ensures -1 <= n <= 3
  {
    if b < 0x80 then 0 else if b < 0xC0 then -1 else if b < 0xE0 then 1 else if b < 0xF0 then 2 else 3
  }

  // the bits that a first byte contributes
  function LeadBits(b: Byte): nat
    requires Missing(b) >= 0
  {
    match Missing(b)
    case 0 => b % 128
    case 1 => b % 64
    case 2 => b % 32
    case _ => b % 16
  }

  datatype Carried = Broken | Carried(value: nat, remain: int, rest: seq<Byte>)

  // continues a sequence from the previous piece; every byte must be a continuation byte
  function CarryOn(value: nat, remain: int, text: seq<Byte>): (c: Carried)
    ensures c.Carried? ==> |c.rest| <= |text|
    decreases |text|
  {
    if AtEnd(text) || remain <= 0 then Carried(value, remain, text)
    else if !Continuation(text[0]) then Broken
    else CarryOn(value * 64 + text[0] % 64, remain - 1, text[1..])
  }

  // completes a sequence within the piece; the bytes are not checked
  function FillUp(value: nat, remain: int, text: seq<Byte>): (c: Carried)
    ensures c.Carried? && |c.rest| <= |text|
    decreases |text|
  {
    if AtEnd(text) || remain <= 0 then Carried(value, remain, text)
    else FillUp(value * 64 + text[0] % 64, remain - 1, text[1..])
  }

  datatype Parse = Fail | Parse(points: seq<nat>, partial: Partial)

  function Prepend(points: seq<nat>, p: Parse): Parse {
    if p.Fail? then Fail else Parse(points + p.points, p.partial)
  }

  // a code point that is complete
  function Complete(value: nat, remain: int): seq<nat> { if remain == 0 then [value] else [] }

  function Sequences(value: nat, remain: int, text: seq<Byte>): Parse
    decreases |text|
  {
    if AtEnd(text) then Parse([], Partial(value, remain))
    else if Missing(text[0]) < 0 then Fail
    else
      var f := FillUp(LeadBits(text[0]), Missing(text[0]), text[1..]);
      Prepend(Complete(f.value, f.remain), Sequences(f.value, f.remain, f.rest))
  }

  datatype Decoded = Decoded(points: seq<nat>, partial: Partial)

  // nothing but the end marker
  function Invalid(): Decoded { Decoded([0], Partial(0, -1)) }

  function Decode(text: seq<Byte>, start: Partial): (d: Decoded)
    ensures |d.points| > 0 && d.points[|d.points| - 1] == 0
  {
    var c := CarryOn(start.value, start.remain, text);
    if c.Broken? then Invalid()
    else
      var p := Sequences(c.value, c.remain, c.rest);
      if p.Fail? then Invalid()
      else Decoded((if start.remain > 0 then Complete(c.value, c.remain) else []) + p.points + [0], p.partial)
  }

  // the first loop: continues the previous decode
  method ContinuePrevious(src: seq<Byte>, start: Partial) returns (ok: bool, value: nat, remain: int, pos: nat)
    ensures var c := CarryOn(start.value, start.remain, src);
            if ok then pos <= |src| && c == Carried(value, remain, src[pos..]) else c.Broken?
  {
    ok, pos, value, remain := true, 0, start.value, start.remain;
    while pos < |src| && src[pos] != 0 && remain > 0
      invariant pos <= |src| && CarryOn(value, remain, src[pos..]) == CarryOn(start.value, start.remain, src)
    {
      assert src[pos..][0] == src[pos] && src[pos..][1..] == src[pos + 1..];
      if src[pos] / 64 != 2 { return false, 0, -1, pos; }
      value := value * 64 + src[pos] % 64;
      pos := pos + 1;
      remain := remain - 1;
    }
  }

  // the inner loop: the bytes behind a first byte
  method ReadSequence(src: seq<Byte>, from: nat) returns (value: nat, remain: int, pos: nat)
    requires from < |src| && Missing(src[from]) >= 0
    ensures from < pos <= |src|
    ensures FillUp(LeadBits(src[from]), Missing(src[from]), src[from + 1..]) == Carried(value, remain, src[pos..])
  {
    remain := Missing(src[from]);
    value := LeadBits(src[from]);
    pos := from + 1;
    ghost var f := FillUp(value, remain, src[pos..]);
    while pos < |src| && src[pos] != 0 && remain > 0
      invariant from < pos <= |src| && FillUp(value, remain, src[pos..]) == f
    {
      assert src[pos..][0] == src[pos] && src[pos..][1..] == src[pos + 1..];
      value := value * 64 + src[pos] % 64;
      pos := pos + 1;
      remain := remain - 1;
    }
  }

  method DecodeUtf8(src: seq<Byte>, start: Partial) returns (codePoints: seq<nat>, partial: Partial)
    ensures Decoded(codePoints, partial) == Decode(src, start)
  {
    hide CarryOn, FillUp, LeadBits, Missing;
    var ok, value, remain, pos := ContinuePrevious(src, start);
    if !ok { return [0], Partial(0, -1); }
    codePoints := [];
    if start.remain > 0 && remain == 0 { codePoints := [value]; }
    ghost var all := Prepend(codePoints, Sequences(value, remain, src[pos..]));
    // decode any subsequent sequences
    while pos < |src| && src[pos] != 0
      invariant pos <= |src| && all == Prepend(codePoints, Sequences(value, remain, src[pos..]))
    {
      hide Prepend;
      if Missing(src[pos]) < 0 {
        NextSequence(src, pos, value, remain);
        return [0], Partial(0, -1);
      }
      ghost var v, m, at := value, remain, pos;
      value, remain, pos := ReadSequence(src, pos);
      NextSequence(src, at, v, m);
      PrependTwice(codePoints, Complete(value, remain), Sequences(value, remain, src[pos..]));
      if remain == 0 {
        codePoints := codePoints + [value];
      } else {
        assert codePoints + [] == codePoints;
      }
    }
    codePoints := codePoints + [0];
    partial := Partial(value, remain);
  }

  lemma NextSequence(src: seq<Byte>, pos: nat, value: nat, remain: int)
    requires pos < |src| && src[pos] != 0
    ensures Sequences(value, remain, src[pos..]) ==
            if Missing(src[pos]) < 0 then Fail
            else
              var f := FillUp(LeadBits(src[pos]), Missing(src[pos]), src[pos + 1..]);
              Prepend(Complete(f.value, f.remain), Sequences(f.value, f.remain, f.rest))
    ensures Missing(src[pos]) < 0 ==> forall points :: Prepend(points, Sequences(value, remain, src[pos..])) == Fail
  {
    assert src[pos..][0] == src[pos] && src[pos..][1..] == src[pos + 1..];
  }

  lemma PrependTwice(a: seq<nat>, b: seq<nat>, p: Parse)
    ensures Prepend(a, Prepend(b, p)) == Prepend(a + b, p)
  {
    if p.Parse? { assert a + (b + p.points) == a + b + p.points; }
  }

  // ---- one byte at a time: what the decoder means on legal bytes ----

  predicate Legal(p: Partial, b: Byte) {
    b != 0 && if p.remain > 0 then Continuation(b) else Missing(b) >= 0
  }

  function After(p: Partial, b: Byte): (q: Partial)
    requires p.remain >= 0 && Legal(p, b)
    ensures q.remain >= 0
  {
    if p.remain > 0 then Partial(p.value * 64 + b % 64, p.remain - 1) else Partial(LeadBits(b), Missing(b))
  }

  predicate AllLegal(p: Partial, text: seq<Byte>)
    requires p.remain >= 0
    decreases |text|
  {
    text == [] || (Legal(p, text[0]) && AllLegal(After(p, text[0]), text[1..]))
  }

  function StateAfter(p: Partial, text: seq<Byte>): (q: Partial)
    requires p.remain >= 0 && AllLegal(p, text)
    ensures q.remain >= 0
    decreases |text|
  {
    if text == [] then p else StateAfter(After(p, text[0]), text[1..])
  }

  // the code points completed on the way
  function Completed(p: Partial, text: seq<Byte>): seq<nat>
    requires p.remain >= 0 && AllLegal(p, text)
    decreases |text|
  {
    if text == [] then []
    else
      var q := After(p, text[0]);
      Complete(q.value, q.remain) + Completed(q, text[1..])
  }

  // carrying on takes the bytes of the open sequence
  lemma {:induction false} CarryTakes(p: Partial, text: seq<Byte>)
    requires p.remain > 0 && AllLegal(p, text)
    ensures var c := CarryOn(p.value, p.remain, text);
            && c.Carried? && c.remain >= 0 && c == FillUp(p.value, p.remain, text)
            && (c.remain > 0 ==> c.rest == [])
            && AllLegal(Partial(c.value, c.remain), c.rest)
            && StateAfter(p, text) == StateAfter(Partial(c.value, c.remain), c.rest)
            && Completed(p, text) == Complete(c.value, c.remain) + Completed(Partial(c.value, c.remain), c.rest)
    decreases |text|
  {
    if text != [] {
      var q := After(p, text[0]);
      if q.remain > 0 {
        CarryTakes(q, text[1..]);
      } else {
        assert CarryOn(q.value, q.remain, text[1..]) == Carried(q.value, 0, text[1..]);
        assert FillUp(q.value, q.remain, text[1..]) == Carried(q.value, 0, text[1..]);
      }
    }
  }

  lemma {:induction false} SequencesTake(p: Partial, text: seq<Byte>)
    requires p.remain >= 0 && AllLegal(p, text) && (p.remain > 0 ==> text == [])
    ensures Sequences(p.value, p.remain, text) == Parse(Completed(p, text), StateAfter(p, text))
    decreases |text|
  {
    if text != [] {
      var q := After(p, text[0]);
      var f := FillUp(q.value, q.remain, text[1..]);
      if q.remain > 0 { CarryTakes(q, text[1..]); }
      assert Completed(p, text) == Complete(f.value, f.remain) + Completed(Partial(f.value, f.remain), f.rest);
      SequencesTake(Partial(f.value, f.remain), f.rest);
    }
  }

  // On legal bytes the decoder completes code points byte by byte.
  lemma DecodeByteByByte(text: seq<Byte>, p: Partial)
    requires p.remain >= 0 && AllLegal(p, text)
    ensures Decode(text, p) == Decoded(Completed(p, text) + [0], StateAfter(p, text))
  {
    if p.remain > 0 {
      CarryTakes(p, text);
      var c := CarryOn(p.value, p.remain, text);
      SequencesTake(Partial(c.value, c.remain), c.rest);
    } else {
      assert CarryOn(p.value, p.remain, text) == Carried(p.value, p.remain, text);
      SequencesTake(p, text);
      assert [] + Completed(p, text) == Completed(p, text);
    }
  }

  lemma {:induction false} InTwoPieces(p: Partial, a: seq<Byte>, b: seq<Byte>)
    requires p.remain >= 0
    ensures AllLegal(p, a + b) <==> AllLegal(p, a) && AllLegal(StateAfter(p, a), b)
    ensures AllLegal(p, a + b) ==>
              StateAfter(p, a + b) == StateAfter(StateAfter(p, a), b) &&
              Completed(p, a + b) == Completed(p, a) + Completed(StateAfter(p, a), b)
    decreases |a|
  {
    if a == [] {
      assert a + b == b;
    } else {
      assert (a + b)[0] == a[0] && (a + b)[1..] == a[1..] + b;
      if Legal(p, a[0]) { InTwoPieces(After(p, a[0]), a[1..], b); }
    }
  }

  // ---- RFC 3629, section 3 ----

  predicate Scalar(c: nat) { c < 0xD800 || 0xE000 <= c < 0x11_0000 }

  function Encode(c: nat): (bytes: seq<Byte>)
    requires 0 < c < 0x11_0000
  {
    if c < 0x80 then [c]
    else if c < 0x800 then [0xC0 + c / 64, 0x80 + c % 64]
    else if c < 0x1_0000 then [0xE0 + c / 4096, 0x80 + c / 64 % 64, 0x80 + c % 64]
    else [0xF0 + c / 262144, 0x80 + c / 4096 % 64, 0x80 + c / 64 % 64, 0x80 + c % 64]
  }

  predicate Text(cs: seq<nat>) { forall i :: 0 <= i < |cs| ==> cs[i] != 0 && Scalar(cs[i]) }

  function EncodeAll(cs: seq<nat>): seq<Byte>
    requires Text(cs)
  {
    if cs == [] then [] else Encode(cs[0]) + EncodeAll(cs[1..])
  }

  lemma LeadByte(b: Byte)
    ensures b < 0x20 ==> Missing(0xC0 + b) == 1 && LeadBits(0xC0 + b) == b
    ensures b < 0x10 ==> Missing(0xE0 + b) == 2 && LeadBits(0xE0 + b) == b
    ensures b < 0x08 ==> Missing(0xF0 + b) == 3 && LeadBits(0xF0 + b) == b
  {
  }

  lemma TailByte(b: Byte)
    requires b < 64
    ensures Continuation(0x80 + b) && (0x80 + b) % 64 == b
  {
  }

  lemma SplitBits(c: nat)
    ensures c == c / 64 * 64 + c % 64 && c / 64 == c / 4096 * 64 + c / 64 % 64
    ensures c / 4096 == c / 262144 * 64 + c / 4096 % 64
  {
    var d := c / 64;
    assert c == 64 * d + c % 64;
    var e := d / 64;
    assert d == 64 * e + d % 64;
    assert c / 4096 == e;
    assert e == 64 * (e / 64) + e % 64;
    assert c / 262144 == e / 64;
  }

  lemma DecodeOne(p: Partial, c: nat)
    requires p.remain == 0 && 0 < c < 0x11_0000
    ensures AllLegal(p, Encode(c)) && Completed(p, Encode(c)) == [c] && StateAfter(p, Encode(c)) == Partial(c, 0)
  {
    var e := Encode(c);
    SplitBits(c);
    TailByte(c % 64);
    if c < 0x80 {
      Take1(p, e);
    } else if c < 0x800 {
      LeadByte(c / 64);
      hide Continuation, LeadBits, Missing;
      Take2(p, e);
    } else if c < 0x1_0000 {
      LeadByte(c / 4096);
      TailByte(c / 64 % 64);
      hide Continuation, LeadBits, Missing;
      Take3(p, e);
    } else {
      LeadByte(c / 262144);
      TailByte(c / 64 % 64);
      TailByte(c / 4096 % 64);
      hide Continuation, LeadBits, Missing;
      Take4(p, e);
    }
  }

  lemma Take1(p: Partial, e: seq<Byte>)
    requires |e| == 1 && p.remain >= 0 && Legal(p, e[0])
    ensures AllLegal(p, e) && StateAfter(p, e) == After(p, e[0])
    ensures Completed(p, e) == Complete(After(p, e[0]).value, After(p, e[0]).remain)
  {
    assert e[1..] == [];
  }

  lemma Take2(p: Partial, e: seq<Byte>)
    requires |e| == 2 && p.remain >= 0 && Legal(p, e[0]) && Legal(After(p, e[0]), e[1])
    ensures var q := After(p, e[0]); var r := After(q, e[1]);
            && AllLegal(p, e) && StateAfter(p, e) == r
            && Completed(p, e) == Complete(q.value, q.remain) + Complete(r.value, r.remain)
  {
    Take1(After(p, e[0]), e[1..]);
  }

  lemma Take3(p: Partial, e: seq<Byte>)
    requires |e| == 3 && p.remain >= 0 && Legal(p, e[0])
    requires var q := After(p, e[0]); q.remain == 2 && Continuation(e[1]) && Continuation(e[2])
    requires e[1] != 0 && e[2] != 0
    ensures var q := After(p, e[0]); var v := (q.value * 64 + e[1] % 64) * 64 + e[2] % 64;
            AllLegal(p, e) && StateAfter(p, e) == Partial(v, 0) && Completed(p, e) == [v]
  {
    Take2(After(p, e[0]), e[1..]);
  }

  lemma Take4(p: Partial, e: seq<Byte>)
    requires |e| == 4 && p.remain >= 0 && Legal(p, e[0])
    requires var q := After(p, e[0]); q.remain == 3 && Continuation(e[1]) && Continuation(e[2]) && Continuation(e[3])
    requires e[1] != 0 && e[2] != 0 && e[3] != 0
    ensures var q := After(p, e[0]); var v := ((q.value * 64 + e[1] % 64) * 64 + e[2] % 64) * 64 + e[3] % 64;
            AllLegal(p, e) && StateAfter(p, e) == Partial(v, 0) && Completed(p, e) == [v]
  {
    hide Continuation;
    Take3(After(p, e[0]), e[1..]);
  }

  lemma TextParts(cs: seq<nat>)
    requires Text(cs) && cs != []
    ensures 0 < cs[0] < 0x11_0000 && Text(cs[1..])
  {
  }

  lemma {:induction false} DecodeText(p: Partial, cs: seq<nat>)
    requires p.remain == 0 && Text(cs)
    ensures AllLegal(p, EncodeAll(cs)) && Completed(p, EncodeAll(cs)) == cs
    ensures StateAfter(p, EncodeAll(cs)) == if cs == [] then p else Partial(cs[|cs| - 1], 0)
    decreases |cs|
  {
    if cs != [] {
      hide AllLegal, StateAfter, Completed, Encode, Scalar, Text;
      TextParts(cs);
      DecodeOne(p, cs[0]);
      DecodeText(Partial(cs[0], 0), cs[1..]);
      InTwoPieces(p, Encode(cs[0]), EncodeAll(cs[1..]));
      assert [cs[0]] + cs[1..] == cs;
    }
  }

  // ---- pieces ----

  // the code points of a text that arrives in pieces, without the end markers
  function DecodePieces(pieces: seq<seq<Byte>>, p: Partial): Decoded
    decreases |pieces|
  {
    if pieces == [] then Decoded([], p)
    else
      var d := Decode(pieces[0], p);
      var rest := DecodePieces(pieces[1..], d.partial);
      Decoded(d.points[..|d.points| - 1] + rest.points, rest.partial)
  }

  lemma {:induction false} PiecesByteByByte(pieces: seq<seq<Byte>>, p: Partial)
    requires p.remain >= 0 && AllLegal(p, Concat(pieces))
    ensures DecodePieces(pieces, p) == Decoded(Completed(p, Concat(pieces)), StateAfter(p, Concat(pieces)))
    decreases |pieces|
  {
    if pieces != [] {
      InTwoPieces(p, pieces[0], Concat(pieces[1..]));
      DecodeByteByByte(pieces[0], p);
      PiecesByteByByte(pieces[1..], StateAfter(p, pieces[0]));
      assert (Completed(p, pieces[0]) + [0])[..|Completed(p, pieces[0])|] == Completed(p, pieces[0]);
    }
  }

  // However the encoding of a text is cut, decoding it piece by piece gives the text back and leaves
  // nothing open.
  lemma RoundTripInPieces(cs: seq<nat>, pieces: seq<seq<Byte>>)
    requires Text(cs) && Concat(pieces) == EncodeAll(cs)
    ensures var d := DecodePieces(pieces, Partial(0, 0)); d.points == cs && d.partial.remain == 0
  {
    DecodeText(Partial(0, 0), cs);
    PiecesByteByByte(pieces, Partial(0, 0));
  }

  // ---- bytes that are not legal ----

  // where the text ends
  function End(text: seq<Byte>): (z: nat)
    ensures z <= |text| && (z < |text| ==> text[z] == 0) && forall k :: 0 <= k < z ==> text[k] != 0
  {
    if AtEnd(text) then 0 else 1 + End(text[1..])
  }

  // from one sequence to the next by the lengths that the first bytes announce, k is a first byte
  predicate StartsAt(text: seq<Byte>, from: nat, k: nat)
    decreases if from <= k then k - from else 0
  {
    from == k ||
    (from < k && from < |text| && Missing(text[from]) >= 0 && StartsAt(text, from + 1 + Missing(text[from]), k))
  }

  lemma {:induction false} StartsBehind(text: seq<Byte>, from: nat, k: nat)
    requires StartsAt(text, from, k)
    ensures from <= k
  {
  }

  // a byte that is no continuation byte breaks off the sequence left open by the previous piece
  ghost predicate BrokenOff(text: seq<Byte>, from: nat, remain: int) {
    exists k :: from <= k < from + remain && k < End(text) && !Continuation(text[k])
  }

  // a continuation byte stands where a sequence starts
  ghost predicate StrayStart(text: seq<Byte>, from: nat) {
    exists k: nat :: k < End(text) && StartsAt(text, from, k) && Continuation(text[k])
  }

  lemma EndAt(text: seq<Byte>, i: nat)
    requires i <= End(text)
    ensures AtEnd(text[i..]) <==> i == End(text)
    ensures i < End(text) ==> text[i..][0] == text[i] && text[i..][1..] == text[i + 1..]
  {
  }

  lemma {:induction false} CarryBroken(text: seq<Byte>, i: nat, value: nat, remain: int)
    requires i <= End(text) && remain >= 0
    ensures var c := CarryOn(value, remain, text[i..]); var j := i + remain;
            if BrokenOff(text, i, remain) then c.Broken?
            else c.Carried? && c.remain >= 0 && c.rest == text[if j < End(text) then j else End(text)..]
    decreases End(text) - i
  {
    EndAt(text, i);
    if i < End(text) && remain > 0 && Continuation(text[i]) {
      CarryBroken(text, i + 1, value * 64 + text[i] % 64, remain - 1);
    }
  }

  lemma {:induction false} FillRest(text: seq<Byte>, i: nat, value: nat, remain: int)
    requires i <= End(text) && remain >= 0
    ensures var f := FillUp(value, remain, text[i..]); var j := i + remain;
            f.remain >= 0 && f.rest == text[if j < End(text) then j else End(text)..]
    decreases End(text) - i
  {
    EndAt(text, i);
    if i < End(text) && remain > 0 { FillRest(text, i + 1, value * 64 + text[i] % 64, remain - 1); }
  }

  lemma {:induction false} SequencesFailWhen(text: seq<Byte>, i: nat, value: nat, remain: int)
    requires i <= End(text)
    ensures Sequences(value, remain, text[i..]).Fail? <==> StrayStart(text, i)
    ensures Sequences(value, remain, text[i..]).Parse? && remain >= 0 ==>
              Sequences(value, remain, text[i..]).partial.remain >= 0
    decreases End(text) - i
  {
    var z := End(text);
    EndAt(text, i);
    hide FillUp, End;
    if i == z {
      forall k: nat | StartsAt(text, i, k) ensures k >= z { StartsBehind(text, i, k); }
    } else if Missing(text[i]) < 0 {
      assert StartsAt(text, i, i);
    } else {
      var next := i + 1 + Missing(text[i]);
      var f := FillUp(LeadBits(text[i]), Missing(text[i]), text[i + 1..]);
      FillRest(text, i + 1, LeadBits(text[i]), Missing(text[i]));
      SequencesFailWhen(text, if next < z then next else z, f.value, f.remain);
      forall k: nat | k < z
        ensures StartsAt(text, i, k) && Continuation(text[k]) <==> StartsAt(text, next, k) && Continuation(text[k])
      {
      }
      if next >= z {
        forall k: nat | StartsAt(text, next, k) || StartsAt(text, z, k) ensures k >= z {
          if StartsAt(text, next, k) { StartsBehind(text, next, k); } else { StartsBehind(text, z, k); }
        }
      }
    }
  }

  // An error is reported exactly when a byte that is no continuation byte breaks off the sequence
  // left open by the previous piece, or a continuation byte stands where a sequence starts, or the
  // previous piece ended in an error and nothing follows.
  lemma ErrorExactlyWhen(text: seq<Byte>, p: Partial)
    ensures Decode(text, p).partial.remain == -1 <==>
            BrokenOff(text, 0, LeftOpen(p)) || StrayStart(text, LeftOpen(p)) || (p.remain == -1 && End(text) == 0)
  {
    if p.remain >= 0 {
      ErrorWhenOpen(text, p);
    } else {
      AfterError(text, p);
      hide Decode;
      ErrorWhenOpen(text, Partial(p.value, 0));
    }
  }

  // bytes still missing of the sequence left open by the previous piece; none after an error
  function LeftOpen(p: Partial): nat { if p.remain < 0 then 0 else p.remain }

  // after an error the next byte starts a sequence
  lemma AfterError(text: seq<Byte>, p: Partial)
    requires p.remain < 0
    ensures Decode(text, p) == if End(text) == 0 then Decoded([0], p) else Decode(text, Partial(p.value, 0))
  {
    assert [] + [0] == [0];
  }

  lemma ErrorWhenOpen(text: seq<Byte>, p: Partial)
    requires p.remain >= 0
    ensures Decode(text, p).partial.remain == -1 <==> BrokenOff(text, 0, p.remain) || StrayStart(text, p.remain)
  {
    var z := End(text);
    assert text[0..] == text;
    CarryBroken(text, 0, p.value, p.remain);
    var c := CarryOn(p.value, p.remain, text);
    hide CarryOn, End, StartsAt;
    if c.Carried? {
      if p.remain <= z {
        SequencesFailWhen(text, p.remain, c.value, c.remain);
      } else {
        SequencesFailWhen(text, z, c.value, c.remain);
        forall k: nat | StartsAt(text, p.remain, k) || StartsAt(text, z, k) ensures k >= z {
          if StartsAt(text, z, k) { StartsBehind(text, z, k); } else { StartsBehind(text, p.remain, k); }
        }
      }
    }
  }

  // ---- the first illegal byte ----

  // the first byte from i on that is not legal, the length if there is none
  function LegalUpTo(q: Partial, text: seq<Byte>, i: nat): (f: nat)
    requires q.remain >= 0 && i <= |text|
    ensures i <= f <= |text|
    decreases |text| - i
  {
    if i == |text| || !Legal(q, text[i]) then i else LegalUpTo(After(q, text[i]), text, i + 1)
  }

  // legal bytes in front of f: continuation bytes where a sequence is open, first bytes where one starts
  lemma {:induction false} LegalKinds(q: Partial, text: seq<Byte>, i: nat, k: nat)
    requires q.remain >= 0 && i <= k < |text| && k <= LegalUpTo(q, text, i)
    ensures k < LegalUpTo(q, text, i) ==> text[k] != 0 && (StartsAt(text, i + q.remain, k) <==> !Continuation(text[k]))
    ensures k == LegalUpTo(q, text, i) && text[k] != 0 ==>
              (StartsAt(text, i + q.remain, k) <==> Continuation(text[k]))
    decreases k - i
  {
    if i < k {
      LegalKinds(After(q, text[i]), text, i + 1, k);
    }
  }

  lemma {:induction false} LegalUpToEnd(q: Partial, text: seq<Byte>, i: nat)
    requires q.remain >= 0 && i <= End(text)
    ensures LegalUpTo(q, text, i) <= End(text)
    ensures LegalUpTo(q, text, i) == End(text) <==> AllLegal(q, text[i..End(text)])
    decreases End(text) - i
  {
    var z := End(text);
    if i < z {
      assert text[i..z][0] == text[i] && text[i..z][1..] == text[i + 1..z];
      if Legal(q, text[i]) { LegalUpToEnd(After(q, text[i]), text, i + 1); }
    }
  }

  // What the first illegal byte of a text does. In the sequence left open by the previous piece, or
  // where a sequence starts, it is reported. Inside a sequence begun in this piece it is taken for
  // the continuation byte with the same low bits, and only what follows can still be reported.
  lemma FirstIllegalByte(text: seq<Byte>, p: Partial)
    ensures var q := Partial(p.value, LeftOpen(p)); var f := LegalUpTo(q, text, 0);
            && f <= End(text) && (f == End(text) <==> AllLegal(q, text[..End(text)]))
            && (f == End(text) ==> (Decode(text, p).partial.remain == -1 <==> p.remain == -1 && End(text) == 0))
            && (f < End(text) && (f < q.remain || StartsAt(text, q.remain, f)) ==> Decode(text, p).partial.remain == -1)
            && (f < End(text) && q.remain <= f && !StartsAt(text, q.remain, f) ==>
                  !Continuation(text[f]) && Decode(text, p) == Decode(text[f := 0x80 + text[f] % 64], p))
  {
    hide Decode, LegalUpTo, End, StartsAt, AllLegal, BrokenOff, StrayStart;
    var q := Partial(p.value, LeftOpen(p));
    var f, z := LegalUpTo(q, text, 0), End(text);
    assert text[..z] == text[0..z];
    LegalUpToEnd(q, text, 0);
    ErrorExactlyWhen(text, p);
    ErrorExactlyWhen(text, q);
    if f == z {
      LegalUnbroken(text, q);
    } else {
      LegalKinds(q, text, 0, f);
      IllegalReported(text, q, f);
      if q.remain <= f && !StartsAt(text, q.remain, f) {
        SameDecoded(text, q, f, 0x80 + text[f] % 64);
        SameAfterError(text, p, f, 0x80 + text[f] % 64);
      }
    }
  }

  lemma SameAfterError(text: seq<Byte>, p: Partial, f: nat, b: Byte)
    requires f < End(text) && b != 0
    ensures var q, text' := Partial(p.value, LeftOpen(p)), text[f := b];
            Decode(text, p) == Decode(text, q) && Decode(text', p) == Decode(text', q)
  {
    hide Decode, End;
    if p.remain < 0 {
      SameEnd(text, f, b);
      AfterError(text, p);
      AfterError(text[f := b], p);
    } else {
      assert Partial(p.value, p.remain) == p;
    }
  }

  lemma LegalUnbroken(text: seq<Byte>, p: Partial)
    requires p.remain >= 0 && LegalUpTo(p, text, 0) == End(text)
    ensures !BrokenOff(text, 0, p.remain) && !StrayStart(text, p.remain)
  {
    hide LegalUpTo, End, StartsAt;
    forall k: nat | k < End(text) ensures StartsAt(text, p.remain, k) <==> !Continuation(text[k]) {
      LegalKinds(p, text, 0, k);
    }
    forall k: nat | k < p.remain ensures !StartsAt(text, p.remain, k) {
      if StartsAt(text, p.remain, k) { StartsBehind(text, p.remain, k); }
    }
  }

  lemma IllegalReported(text: seq<Byte>, p: Partial, f: nat)
    requires p.remain >= 0 && f < End(text)
    requires StartsAt(text, p.remain, f) <==> Continuation(text[f])
    ensures f < p.remain ==> BrokenOff(text, 0, p.remain)
    ensures StartsAt(text, p.remain, f) ==> StrayStart(text, p.remain)
  {
    hide End, StartsAt;
    if StartsAt(text, p.remain, f) { StartsBehind(text, p.remain, f); }
  }

  // only the low bits of a byte inside a sequence count
  lemma SameDecoded(text: seq<Byte>, p: Partial, f: nat, b: Byte)
    requires p.remain >= 0 && p.remain <= f < End(text) && !StartsAt(text, p.remain, f)
    requires b != 0 && b % 64 == text[f] % 64
    ensures Decode(text, p) == Decode(text[f := b], p)
  {
    hide Sequences, CarryOn, End, StartsAt;
    var text' := text[f := b];
    assert text[0..] == text && text'[0..] == text';
    SameEnd(text, f, b);
    SameCarry(text, f, b, 0, p.value, p.remain);
    var c := CarryOn(p.value, p.remain, text);
    if c.Carried? {
      SameSequences(text, f, b, p.remain, c.value, c.remain);
    }
  }

  lemma {:induction false} SameEnd(text: seq<Byte>, f: nat, b: Byte)
    requires f < End(text) && b != 0
    ensures End(text[f := b]) == End(text)
  {
    if f > 0 {
      assert text[f := b][1..] == text[1..][f - 1 := b];
      SameEnd(text[1..], f - 1, b);
    } else {
      assert text[f := b][1..] == text[1..];
    }
  }

  lemma {:induction false} SameCarry(text: seq<Byte>, f: nat, b: Byte, i: nat, value: nat, remain: int)
    requires f < End(text) && b != 0 && End(text[f := b]) == End(text)
    requires 0 <= i && remain >= 0 && i + remain <= f
    ensures var c, c' := CarryOn(value, remain, text[i..]), CarryOn(value, remain, text[f := b][i..]);
            if c.Broken? then c'.Broken?
            else c'.Carried? && c'.value == c.value && c'.remain == c.remain &&
                 c.rest == text[i + remain..] && c'.rest == text[f := b][i + remain..]
    decreases remain
  {
    EndAt(text, i);
    EndAt(text[f := b], i);
    hide End;
    if remain > 0 && Continuation(text[i]) { SameCarry(text, f, b, i + 1, value * 64 + text[i] % 64, remain - 1); }
  }

  lemma {:induction false} SameFill(text: seq<Byte>, f: nat, b: Byte, i: nat, value: nat, remain: int)
    requires f < End(text) && b != 0 && b % 64 == text[f] % 64 && End(text[f := b]) == End(text)
    requires i <= End(text) && remain >= 0
    ensures var c, c' := FillUp(value, remain, text[i..]), FillUp(value, remain, text[f := b][i..]);
            c.value == c'.value && c.remain == c'.remain
    decreases remain
  {
    EndAt(text, i);
    EndAt(text[f := b], i);
    hide End;
    if i < End(text) && remain > 0 { SameFill(text, f, b, i + 1, value * 64 + text[i] % 64, remain - 1); }
  }

  lemma SequencesStep(text: seq<Byte>, i: nat, value: nat, remain: int)
    requires i < End(text)
    ensures Missing(text[i]) < 0 ==> Sequences(value, remain, text[i..]) == Fail
    ensures Missing(text[i]) >= 0 ==>
              var m := Missing(text[i]); var c, next := FillUp(LeadBits(text[i]), m, text[i + 1..]), i + 1 + m;
              var end := if next < End(text) then next else End(text);
              Sequences(value, remain, text[i..]) ==
                Prepend(Complete(c.value, c.remain), Sequences(c.value, c.remain, text[end..]))
  {
    EndAt(text, i);
    hide End, FillUp;
    if Missing(text[i]) >= 0 { FillRest(text, i + 1, LeadBits(text[i]), Missing(text[i])); }
  }

  lemma {:induction false} SameSequences(text: seq<Byte>, f: nat, b: Byte, i: nat, value: nat, remain: int)
    requires f < End(text) && b != 0 && b % 64 == text[f] % 64 && End(text[f := b]) == End(text)
    requires i <= f && !StartsAt(text, i, f)
    ensures Sequences(value, remain, text[i..]) == Sequences(value, remain, text[f := b][i..])
    decreases End(text) - i
  {
    hide Sequences, FillUp, End, Missing, LeadBits, Complete;
    var text', m := text[f := b], Missing(text[i]);
    SequencesStep(text, i, value, remain);
    SequencesStep(text', i, value, remain);
    if m >= 0 {
      var next := i + 1 + m;
      SameFill(text, f, b, i + 1, LeadBits(text[i]), m);
      if next <= f {
        var c := FillUp(LeadBits(text[i]), m, text[i + 1..]);
        SameSequences(text, f, b, next, c.value, c.remain);
      } else {
        var end := if next < End(text) then next else End(text);
        assert text'[end..] == text[end..];
      }
    }
  }

  // a sequence cut short by a byte that is no continuation byte, in one piece: not noticed
  lemma BadTailDecodes(value: nat, b: Byte)
    requires 0 < b < 0x80
    ensures Decode([0xC3, b], Partial(value, 0)) == Decoded([3 * 64 + b % 64, 0], Partial(3 * 64 + b % 64, 0))
  {
    var text: seq<Byte> := [0xC3, b];
    assert text[1..] == [b] && [b][1..] == [];
    var v := 3 * 64 + b % 64;
    assert FillUp(v, 0, []) == Carried(v, 0, []);
    assert FillUp(3, 1, [b]) == Carried(v, 0, []);
    assert Sequences(v, 0, []) == Parse([], Partial(v, 0));
    assert Sequences(value, 0, text) == Prepend([v], Parse([], Partial(v, 0)));
    assert [v] + [] == [v];
    assert [] + [v] + [0] == [v, 0];
  }

  // in two pieces: an error
  lemma BadTailRefused(value: nat, b: Byte)
    requires 0 < b < 0x80
    ensures DecodePieces([[0xC3], [b]], Partial(value, 0)) == Decoded([], Partial(0, -1))
  {
    var first: seq<Byte>, second: seq<Byte> := [0xC3], [b];
    assert first[1..] == [];
    assert FillUp(3, 1, []) == Carried(3, 1, []);
    assert Sequences(value, 0, first) == Prepend([], Sequences(3, 1, []));
    assert Decode(first, Partial(value, 0)) == Decoded([0], Partial(3, 1));
    assert Decode(second, Partial(3, 1)) == Invalid();
    var none := DecodePieces([], Partial(0, -1));
    var d := Decode(second, Partial(3, 1));
    assert [second][1..] == [];
    assert DecodePieces([second], Partial(3, 1)) == Decoded(d.points[..0] + none.points, none.partial);
    assert [first, second][1..] == [second];
  }

  // ---- 32-bit values ----

  // the value stays below 2^22 when all missing bits have come
  predicate Fits(value: nat, remain: int) {
    remain <= 3 && (remain >= 0 ==> (value + 1) * Pow64(remain) <= 0x40_0000) && value < 0x40_0000
  }

  lemma FitsStep(value: nat, remain: int, d: nat)
    requires Fits(value, remain) && remain > 0 && d < 64
    ensures Fits(value * 64 + d, remain - 1)
  {
    var q := Pow64(remain - 1);
    assert (value + 1) * (64 * q) == (value * 64 + 64) * q;
    assert (value * 64 + d + 1) * q <= (value * 64 + 64) * q;
    assert (value * 64 + d + 1) * 1 <= (value * 64 + d + 1) * q;
  }

  lemma {:induction false} CarryFits(value: nat, remain: int, text: seq<Byte>)
    requires Fits(value, remain)
    ensures var c := CarryOn(value, remain, text); c.Carried? ==> Fits(c.value, c.remain)
    ensures var f := FillUp(value, remain, text); Fits(f.value, f.remain)
    decreases |text|
  {
    if !AtEnd(text) && remain > 0 {
      FitsStep(value, remain, text[0] % 64);
      CarryFits(value * 64 + text[0] % 64, remain - 1, text[1..]);
    }
  }

  lemma LeadFits(b: Byte)
    requires Missing(b) >= 0
    ensures Fits(LeadBits(b), Missing(b))
  {
    assert Pow64(0) == 1 && Pow64(1) == 64 && Pow64(2) == 0x1000 && Pow64(3) == 0x4_0000;
  }

  lemma {:induction false} SequencesFit(value: nat, remain: int, text: seq<Byte>)
    requires Fits(value, remain)
    ensures var p := Sequences(value, remain, text);
            p.Parse? ==> Fits(p.partial.value, p.partial.remain) &&
                         forall i :: 0 <= i < |p.points| ==> p.points[i] < 0x40_0000
    decreases |text|
  {
    if !AtEnd(text) && Missing(text[0]) >= 0 {
      hide Fits, LeadBits, FillUp;
      LeadFits(text[0]);
      CarryFits(LeadBits(text[0]), Missing(text[0]), text[1..]);
      var f := FillUp(LeadBits(text[0]), Missing(text[0]), text[1..]);
      SequencesFit(f.value, f.remain, f.rest);
      assert f.value < 0x40_0000 by { FitsSmall(f.value, f.remain); }
    }
  }

  lemma FitsSmall(value: nat, remain: int)
    requires Fits(value, remain)
    ensures value < 0x40_0000
  {
  }

  // No shift ever leaves 32 bits, so that unbounded numbers model the decoder faithfully.
  lemma DecodeFits(text: seq<Byte>, p: Partial)
    requires Fits(p.value, p.remain)
    ensures var d := Decode(text, p);
            Fits(d.partial.value, d.partial.remain) && forall i :: 0 <= i < |d.points| ==> d.points[i] < 0x40_0000
  {
    CarryFits(p.value, p.remain, text);
    var c := CarryOn(p.value, p.remain, text);
    if c.Carried? {
      SequencesFit(c.value, c.remain, c.rest);
    }
  }
}
