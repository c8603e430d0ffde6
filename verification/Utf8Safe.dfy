// Character boundaries in bytes that may be malformed, and the text carried into the next window.
module Utf8Safe {
  import opened Bytes

  const MAX_CARRY_CHARS := 200

  // the length announced by a first byte, 0 for a byte that cannot be first
  function SeqLen(c: Byte): (n: nat)
    ensures n <= 4 && (n == 0 <==> Continuation(c) || c >= 0xF8)
  {
    if c < 0x80 then 1
    else if c / 32 == 6 then 2
    else if c / 16 == 14 then 3
    else if c / 8 == 30 then 4
    else 0
  }

  // a whole character stands at the front
  predicate CharFirst(s: seq<Byte>) {
    s != [] && 0 < SeqLen(s[0]) <= |s| && forall k :: 1 <= k < SeqLen(s[0]) ==> Continuation(s[k])
  }

  // lead bytes with as many continuation bytes as they announce
  predicate WellFormed(s: seq<Byte>) {
    s == [] || (CharFirst(s) && WellFormed(s[SeqLen(s[0])..]))
  }

  // ---- boundaries ----

  // well-formed text can be put together and taken apart at its boundaries
  lemma {:induction false} JoinIffBoth(a: seq<Byte>, b: seq<Byte>)
    requires WellFormed(a)
    ensures WellFormed(a + b) <==> WellFormed(b)
    decreases |a|
  {
    if a == [] {
      assert a + b == b;
    } else {
      var n := SeqLen(a[0]);
      assert (a + b)[n..] == a[n..] + b;
      assert forall k :: 0 <= k < n ==> (a + b)[k] == a[k];
      JoinIffBoth(a[n..], b);
    }
  }

  // In well-formed text the boundaries are exactly the places without a continuation byte.
  lemma {:induction false} BoundaryIffNoContinuation(s: seq<Byte>, i: nat)
    requires WellFormed(s) && i <= |s|
    ensures WellFormed(s[..i]) && WellFormed(s[i..]) <==> i == |s| || !Continuation(s[i])
    decreases |s|
  {
    if i == 0 {
      assert s[0..] == s;
    } else {
      var n := SeqLen(s[0]);
      if i < n {
        assert s[..i][0] == s[0];
      } else {
        BoundaryIffNoContinuation(s[n..], i - n);
        SliceTwice(s, n, i);
        assert forall k :: 0 <= k < n ==> s[..i][k] == s[k];
        assert i < |s| ==> s[n..][i - n] == s[i];
      }
    }
  }

  lemma SliceTwice(s: seq<Byte>, n: nat, i: nat)
    requires n <= i <= |s|
    ensures s[n..][i - n..] == s[i..] && s[n..][..i - n] == s[..i][n..]
  {
  }

  method AlignStart(s: seq<Byte>, i: nat) returns (j: nat)
    requires i <= |s|
    ensures i <= j <= |s| && (j == |s| || !Continuation(s[j]))
    ensures forall k :: i <= k < j ==> Continuation(s[k])
    // in well-formed text: the next boundary, less than a character away
    ensures WellFormed(s) ==> WellFormed(s[..j]) && WellFormed(s[j..])
  {
    j := i;
    while j < |s| && s[j] / 64 == 2
      invariant i <= j <= |s| && forall k :: i <= k < j ==> Continuation(s[k])
    {
      j := j + 1;
    }
    if WellFormed(s) { BoundaryIffNoContinuation(s, j); }
  }

  // ---- sanitizing ----

  // stray bytes are skipped one by one; from a first byte that announces more than there is, the rest
  // is dropped
  function Sanitized(s: seq<Byte>): seq<Byte> {
    if s == [] then []
    else
      var n := SeqLen(s[0]);
      if n == 0 then Sanitized(s[1..])
      else if n > |s| then []
      else if !CharFirst(s) then Sanitized(s[1..])
      else s[..n] + Sanitized(s[n..])
  }

  method Sanitize(s: seq<Byte>) returns (out: seq<Byte>)
    ensures out == Sanitized(s)
  {
    out := [];
    var i := 0;
    assert s[0..] == s;
    while i < |s|
      invariant 0 <= i <= |s| && Sanitized(s) == out + Sanitized(s[i..])
      decreases |s| - i
    {
      i, out := SanitizeAt(s, i, out);
    }
  }

  // skips a byte, takes a character over, or gives up the rest
  method SanitizeAt(s: seq<Byte>, i: nat, out: seq<Byte>) returns (next: nat, result: seq<Byte>)
    requires i < |s|
    ensures i < next <= |s| && result + Sanitized(s[next..]) == out + Sanitized(s[i..])
  {
    hide SeqLen, CharFirst, Sanitized;
    SanitizeStep(s, i);
    result := out;
    var n := SeqLen(s[i]);
    if n == 0 { return i + 1, out; }
    if i + n > |s| {
      SanitizedEnd(s);
      return |s|, out;
    }
    var ok := CheckTail(s, i, n);
    if !ok { return i + 1, out; }
    ghost var rest := Sanitized(s[i + n..]);
    assert out + (s[i..i + n] + rest) == out + s[i..i + n] + rest;
    result := out + s[i..i + n];
    next := i + n;
  }

  lemma SanitizedEnd(s: seq<Byte>)
    ensures Sanitized(s[|s|..]) == []
  {
  }

  // what the text from i on gives
  lemma SanitizeStep(s: seq<Byte>, i: nat)
    requires i < |s|
    ensures var n := SeqLen(s[i]);
            Sanitized(s[i..]) ==
            if n == 0 then Sanitized(s[i + 1..])
            else if i + n > |s| then []
            else if exists k :: i + 1 <= k < i + n && !Continuation(s[k]) then Sanitized(s[i + 1..])
            else s[i..i + n] + Sanitized(s[i + n..])
  {
    var rest := s[i..];
    var n := SeqLen(s[i]);
    assert rest[0] == s[i] && rest[1..] == s[i + 1..];
    if i + n <= |s| {
      assert rest[..n] == s[i..i + n] && rest[n..] == s[i + n..];
      assert forall k :: 0 <= k < n ==> rest[k] == s[i + k];
      hide SeqLen;
    }
  }

  method CheckTail(s: seq<Byte>, i: nat, n: nat) returns (ok: bool)
    requires i + n <= |s| && n > 0
    ensures ok <==> forall k :: i + 1 <= k < i + n ==> Continuation(s[k])
  {
    for k := i + 1 to i + n
      invariant forall l :: i + 1 <= l < k ==> Continuation(s[l])
    {
      if s[k] / 64 != 2 { return false; }
    }
    ok := true;
  }

  // The result is well-formed.
  lemma {:induction false} SanitizedWellFormed(s: seq<Byte>)
    ensures WellFormed(Sanitized(s))
  {
    if s != [] {
      var n := SeqLen(s[0]);
      if n == 0 || (n <= |s| && !CharFirst(s)) {
        SanitizedWellFormed(s[1..]);
      } else if n <= |s| {
        SanitizedWellFormed(s[n..]);
        assert (s[..n] + Sanitized(s[n..]))[n..] == Sanitized(s[n..]);
      }
    }
  }

  lemma {:induction false} SanitizedShorter(s: seq<Byte>)
    ensures |Sanitized(s)| <= |s|
    ensures |Sanitized(s)| == |s| ==> WellFormed(s) && Sanitized(s) == s
  {
    if s != [] {
      var n := SeqLen(s[0]);
      if n == 0 || (n <= |s| && !CharFirst(s)) {
        SanitizedShorter(s[1..]);
      } else if n <= |s| {
        SanitizedShorter(s[n..]);
        assert s[..n] + s[n..] == s;
      }
    }
  }

  lemma CharFirstExtends(a: seq<Byte>, b: seq<Byte>)
    requires CharFirst(a)
    ensures CharFirst(a + b)
  {
    assert forall k :: 0 <= k < |a| ==> (a + b)[k] == a[k];
  }

  lemma KeepsFirst(s: seq<Byte>)
    requires CharFirst(s)
    ensures var n := SeqLen(s[0]); Sanitized(s) == s[..n] + Sanitized(s[n..])
  {
  }

  lemma FirstOfWellFormed(s: seq<Byte>)
    requires WellFormed(s) && s != []
    ensures CharFirst(s) && 0 < SeqLen(s[0]) <= |s| && WellFormed(s[SeqLen(s[0])..])
  {
  }

  lemma JoinFront(a: seq<Byte>, b: seq<Byte>, n: nat, rest: seq<Byte>)
    requires n <= |a|
    ensures (a + b)[n..] == a[n..] + b && (a + b)[..n] == a[..n]
    ensures a[..n] + (a[n..] + rest) == a + rest
  {
    assert a[..n] + a[n..] == a;
  }

  // A well-formed front is kept whatever follows.
  lemma {:induction false} SanitizedKeepsFront(a: seq<Byte>, b: seq<Byte>)
    requires WellFormed(a)
    ensures Sanitized(a + b) == a + Sanitized(b)
    decreases |a|
  {
    hide Sanitized, CharFirst, SeqLen, WellFormed;
    if a == [] {
      assert a + b == b;
    } else {
      FirstOfWellFormed(a);
      CharFirstExtends(a, b);
      KeepsFirst(a + b);
      assert (a + b)[0] == a[0];
      var n := SeqLen(a[0]);
      SanitizedKeepsFront(a[n..], b);
      JoinFront(a, b, n, Sanitized(b));
    }
  }

  // Sanitizing changes nothing exactly when the text is well-formed: in particular it is idempotent,
  // and its length tells whether anything was dropped.
  lemma SanitizedIdentity(s: seq<Byte>)
    ensures Sanitized(s) == s <==> WellFormed(s)
    ensures |Sanitized(s)| == |s| <==> WellFormed(s)
    ensures Sanitized(Sanitized(s)) == Sanitized(s)
  {
    SanitizedShorter(s);
    SanitizedWellFormed(s);
    KeepsWhole(s);
    KeepsWhole(Sanitized(s));
  }

  lemma KeepsWhole(s: seq<Byte>)
    ensures WellFormed(s) ==> Sanitized(s) == s
  {
    if WellFormed(s) {
      SanitizedKeepsFront(s, []);
      assert s + [] == s;
    }
  }

  // ---- what a truncated character takes along ----

  // every whole character of the text, and nothing else
  function Kept(s: seq<Byte>): (r: seq<Byte>)
    ensures |r| <= |s|
  {
    if s == [] then []
    else if CharFirst(s) then s[..SeqLen(s[0])] + Kept(s[SeqLen(s[0])..])
    else Kept(s[1..])
  }

  // a whole character stands behind a first byte that announces more than there is
  ghost predicate LosesTail(s: seq<Byte>) {
    exists k: nat, l: nat :: k < l < |s| && Truncated(s, k) && WholeAt(s, l)
  }

  predicate Truncated(s: seq<Byte>, k: nat) { k < |s| && SeqLen(s[k]) > |s| - k }

  predicate WholeAt(s: seq<Byte>, l: nat) { l < |s| && CharFirst(s[l..]) }

  // Sanitizing keeps every whole character exactly when none stands behind a truncated one; it never
  // loses more than two bytes of whole characters.
  lemma {:induction false} KeepsWholeCharactersExactlyWhen(s: seq<Byte>)
    ensures Sanitized(s) == Kept(s) <==> !LosesTail(s)
    ensures |Sanitized(s)| <= |Kept(s)| <= |Sanitized(s)| + 2
  {
    if s != [] {
      var n := SeqLen(s[0]);
      if n > |s| {
        assert !CharFirst(s);
        KeptIffWhole(s[1..]);
        LosesAll(s);
      } else {
        var m := if CharFirst(s) then n else 1;
        KeepsWholeCharactersExactlyWhen(s[m..]);
        hide SeqLen;
        LosesLater(s, m);
        if CharFirst(s) { SameFront(s[..n], Sanitized(s[n..]), Kept(s[n..])); }
      }
    } else {
      assert !LosesTail(s);
    }
  }

  lemma SameFront(a: seq<Byte>, b: seq<Byte>, c: seq<Byte>)
    ensures a + b == a + c <==> b == c
  {
    if a + b == a + c { assert b == (a + b)[|a|..] == (a + c)[|a|..] == c; }
  }

  lemma {:induction false} KeptIffWhole(s: seq<Byte>)
    ensures Kept(s) != [] <==> exists l: nat :: WholeAt(s, l)
  {
    if s != [] {
      assert s[0..] == s;
      if CharFirst(s) {
        assert WholeAt(s, 0);
      } else {
        KeptIffWhole(s[1..]);
        forall l: nat | 0 < l < |s| ensures WholeAt(s, l) <==> WholeAt(s[1..], l - 1) { ShiftedWhole(s, 1, l); }
        if l: nat :| WholeAt(s[1..], l) { assert WholeAt(s, l + 1); }
      }
    }
  }

  lemma ShiftedWhole(s: seq<Byte>, m: nat, l: nat)
    requires m <= l <= |s|
    ensures WholeAt(s, l) <==> WholeAt(s[m..], l - m)
  {
    assert s[m..][l - m..] == s[l..];
  }

  // at a truncated character everything behind it is lost
  lemma LosesAll(s: seq<Byte>)
    requires Truncated(s, 0)
    ensures LosesTail(s) <==> exists l: nat :: WholeAt(s[1..], l)
  {
    if k: nat, l: nat :| k < l < |s| && Truncated(s, k) && WholeAt(s, l) {
      ShiftedWhole(s, 1, l);
      assert WholeAt(s[1..], l - 1);
    }
    if l: nat :| WholeAt(s[1..], l) {
      ShiftedWhole(s, 1, l + 1);
      assert Truncated(s, 0) && WholeAt(s, l + 1);
    }
  }

  // nothing is lost in a whole character or in a byte that is skipped
  lemma LosesLater(s: seq<Byte>, m: nat)
    requires s != [] && SeqLen(s[0]) <= |s| && m == if CharFirst(s) then SeqLen(s[0]) else 1
    ensures LosesTail(s) <==> LosesTail(s[m..])
  {
    assert !Truncated(s, 0) && forall k: nat :: k < m && k < |s| ==> !Truncated(s, k);
    forall k: nat | m <= k < |s| ensures Truncated(s, k) <==> Truncated(s[m..], k - m) {}
    hide Truncated, SeqLen, WholeAt, CharFirst;
    if k: nat, l: nat :| k < l < |s| && Truncated(s, k) && WholeAt(s, l) {
      ShiftedWhole(s, m, l);
      assert Truncated(s[m..], k - m) && WholeAt(s[m..], l - m);
    }
    if k: nat, l: nat :| k < l < |s[m..]| && Truncated(s[m..], k) && WholeAt(s[m..], l) {
      ShiftedWhole(s, m, l + m);
      assert Truncated(s, k + m) && WholeAt(s, l + m);
    }
  }

  // the first byte of a longer character in front of a whole one
  lemma TruncatedTailTakesMore(c: Byte)
    requires SeqLen(c) >= 3
    ensures Kept([c, 0x41]) == [0x41] && Sanitized([c, 0x41]) == []
  {
    var s := [c, 0x41 as Byte];
    assert s[1..] == [0x41] && [0x41 as Byte][..1] == [0x41] && [0x41 as Byte][1..] == [];
    assert CharFirst([0x41]);
  }

  // ---- characters ----

  function Split(s: seq<Byte>): seq<seq<Byte>> {
    if s == [] then []
    else
      var n := SeqLen(s[0]);
      if n == 0 || n > |s| then Split(s[1..]) else [s[..n]] + Split(s[n..])
  }

  method Chars(s: seq<Byte>) returns (out: seq<seq<Byte>>)
    ensures out == Split(s)
  {
    out := [];
    var i := 0;
    assert s[0..] == s;
    while i < |s|
      invariant 0 <= i <= |s| && Split(s) == out + Split(s[i..])
      decreases |s| - i
    {
      hide SeqLen;
      ghost var rest := s[i..];
      assert rest[0] == s[i] && rest[1..] == s[i + 1..];
      var n := SeqLen(s[i]);
      if n == 0 || i + n > |s| {
        i := i + 1;
        continue;
      }
      assert rest[..n] == s[i..i + n] && rest[n..] == s[i + n..];
      assert out + ([s[i..i + n]] + Split(s[i + n..])) == out + [s[i..i + n]] + Split(s[i + n..]);
      out := out + [s[i..i + n]];
      i := i + n;
    }
  }

  predicate OneChar(c: seq<Byte>) { CharFirst(c) && |c| == SeqLen(c[0]) }

  // Well-formed text is split into its characters and nothing is lost.
  lemma {:induction false} SplitIsExact(s: seq<Byte>)
    requires WellFormed(s)
    ensures Concat(Split(s)) == s
    ensures forall k :: 0 <= k < |Split(s)| ==> OneChar(Split(s)[k])
  {
    if s != [] {
      var n := SeqLen(s[0]);
      SplitIsExact(s[n..]);
      assert s[..n] + s[n..] == s;
    }
  }

  // ---- the carried text ----

  predicate Blank(c: Byte) { c == 0x20 || c == 0x09 || c == 0x0A }

  predicate BlanksFrom(s: seq<Byte>, j: nat) { forall k :: j <= k < |s| ==> Blank(s[k]) }

  // part is a stretch of whole that only leaves blanks behind it
  ghost predicate TailOf(part: seq<Byte>, whole: seq<Byte>) {
    exists i: nat, j: nat :: i <= j <= |whole| && part == whole[i..j] && BlanksFrom(whole, j)
  }

  // the first space from i on, the length if there is none
  function SpaceFrom(s: seq<Byte>, i: nat): (k: nat)
    requires i <= |s|
    ensures i <= k <= |s| && (k < |s| ==> s[k] == 0x20) && forall l :: i <= l < k ==> s[l] != 0x20
    decreases |s| - i
  {
    if i == |s| || s[i] == 0x20 then i else SpaceFrom(s, i + 1)
  }

  // the first place from i on without a continuation byte
  function CharFrom(s: seq<Byte>, i: nat): (k: nat)
    requires i <= |s|
    ensures i <= k <= |s| && (k == |s| || !Continuation(s[k])) && forall l :: i <= l < k ==> Continuation(s[l])
    decreases |s| - i
  {
    if i == |s| || !Continuation(s[i]) then i else CharFrom(s, i + 1)
  }

  // where the carried text starts: at a word if one starts in reach, else at a character
  function CarryStart(s: seq<Byte>): (k: nat)
    ensures k <= |s| <= k + MAX_CARRY_CHARS
  {
    if |s| <= MAX_CARRY_CHARS then 0
    else
      var space := SpaceFrom(s, |s| - MAX_CARRY_CHARS);
      CharFrom(s, if space + 1 < |s| then space + 1 else |s| - MAX_CARRY_CHARS)
  }

  // only blanks lie outside i to j, and none at its ends
  predicate TrimAt(s: seq<Byte>, i: nat, j: nat) {
    && i <= j <= |s| && BlanksFrom(s, j) && (forall k :: 0 <= k < i ==> Blank(s[k]))
    && (i < j ==> !Blank(s[i]) && !Blank(s[j - 1]))
  }

  // r is s without the blanks at both ends
  ghost predicate IsTrimmed(s: seq<Byte>, r: seq<Byte>) {
    exists i: nat, j: nat :: i <= j <= |s| && TrimAt(s, i, j) && r == s[i..j]
  }

  lemma TrimOrder(s: seq<Byte>, i: nat, j: nat, l: nat, m: nat)
    requires TrimAt(s, i, j) && TrimAt(s, l, m) && i < j
    ensures l <= i && j <= m
  {
  }

  lemma TrimmedOnce(s: seq<Byte>, r: seq<Byte>, q: seq<Byte>)
    requires IsTrimmed(s, r) && IsTrimmed(s, q)
    ensures r == q
  {
    hide TrimAt;
    var i: nat, j: nat :| i <= j <= |s| && TrimAt(s, i, j) && r == s[i..j];
    var l: nat, m: nat :| l <= m <= |s| && TrimAt(s, l, m) && q == s[l..m];
    if i < j { TrimOrder(s, i, j, l, m); }
    if l < m { TrimOrder(s, l, m, i, j); }
  }

  method FindSpace(s: seq<Byte>, from: nat) returns (found: bool, k: nat)
    requires from <= |s|
    ensures if found then from <= k < |s| && s[k] == 0x20 && forall l :: from <= l < k ==> s[l] != 0x20
            else forall l :: from <= l < |s| ==> s[l] != 0x20
  {
    k := from;
    while k < |s|
      invariant from <= k <= |s| && forall l :: from <= l < k ==> s[l] != 0x20
    {
      if s[k] == 0x20 { return true, k; }
      k := k + 1;
    }
    found := false;
  }

  // the bytes between the first and the last that are not blank
  method Trim(s: seq<Byte>) returns (r: seq<Byte>)
    ensures TailOf(r, s) && IsTrimmed(s, r)
    ensures r != [] ==> !Blank(r[0]) && !Blank(r[|r| - 1])
    ensures r == [] <==> forall k :: 0 <= k < |s| ==> Blank(s[k])
    ensures WellFormed(s) ==> WellFormed(r)
  {
    hide WellFormed, Blank;
    var b := 0;
    while b < |s| && Blank(s[b])
      invariant 0 <= b <= |s| && forall k :: 0 <= k < b ==> Blank(s[k])
    {
      b := b + 1;
    }
    if b == |s| {
      NothingTrimmed(s);
      return [];
    }
    var e := |s| - 1;
    while Blank(s[e])
      invariant b <= e < |s| && forall k :: e < k < |s| ==> Blank(s[k])
      decreases e
    {
      e := e - 1;
    }
    r := s[b..e + 1];
    assert BlanksFrom(s, e + 1) && TrimAt(s, b, e + 1);
    if WellFormed(s) { TrimmedWellFormed(s, b, e + 1); }
  }

  lemma NothingTrimmed(s: seq<Byte>)
    requires forall k :: 0 <= k < |s| ==> Blank(s[k])
    ensures TailOf([], s) && WellFormed([]) && IsTrimmed(s, [])
  {
    assert s[|s|..|s|] == [] && BlanksFrom(s, |s|) && TrimAt(s, |s|, |s|);
  }

  lemma {:induction false} BlanksWellFormed(s: seq<Byte>)
    requires forall k :: 0 <= k < |s| ==> Blank(s[k])
    ensures WellFormed(s)
    decreases |s|
  {
    if s != [] { BlanksWellFormed(s[1..]); }
  }

  lemma TrimmedWellFormed(s: seq<Byte>, b: nat, e: nat)
    requires WellFormed(s) && b <= e <= |s|
    requires forall k :: 0 <= k < b ==> Blank(s[k])
    requires e < |s| ==> Blank(s[e])
    ensures WellFormed(s[b..e])
  {
    BoundaryIffNoContinuation(s, e);
    BlanksWellFormed(s[..b]);
    JoinIffBoth(s[..b], s[b..e]);
    assert s[..b] + s[b..e] == s[..e];
  }

  lemma SliceBehind(s: seq<Byte>, start: nat, i: nat, j: nat)
    requires start <= |s| && i <= j <= |s| - start
    ensures s[start..][i..j] == s[start + i..start + j]
  {
  }

  lemma TailOfTail(a: seq<Byte>, whole: seq<Byte>, start: nat)
    requires start <= |whole| && TailOf(a, whole[start..])
    ensures TailOf(a, whole)
  {
    var b := whole[start..];
    var i: nat, j: nat :| i <= j <= |b| && a == b[i..j] && BlanksFrom(b, j);
    assert start + j <= |whole|;
    SliceBehind(whole, start, i, j);
    forall k | start + j <= k < |whole| ensures Blank(whole[k]) {
      assert whole[k] == b[k - start];
    }
    assert BlanksFrom(whole, start + j);
  }

  class Handle {
    var carry: seq<Byte>

    constructor ()
      ensures carry == []
    {
      carry := [];
    }

    // keeps the tail of a committed text as context for the next window
    method Commit(result: seq<Byte>, isFinal: bool, repetitive: bool)
      modifies this
      ensures !isFinal || result == [] || repetitive ==> carry == old(carry)
      ensures isFinal && result != [] && !repetitive ==>
                && |carry| <= MAX_CARRY_CHARS && TailOf(carry, result)
                && (carry != [] ==> !Blank(carry[0]) && !Blank(carry[|carry| - 1]))
                && (WellFormed(result) ==> WellFormed(carry))
      // it is the end of the text from its starting place on, but for the outer blanks
      ensures isFinal && result != [] && !repetitive ==> IsTrimmed(result[CarryStart(result)..], carry)
    {
      if isFinal && result != [] && !repetitive {
        var start := 0;
        if |result| <= MAX_CARRY_CHARS {
          carry := result;
        } else {
          start := |result| - MAX_CARRY_CHARS;
          var found, sp := FindSpace(result, start);
          if found && sp + 1 < |result| { start := sp + 1; }
          start := AlignStart(result, start);
          assert start == CarryStart(result);
          carry := result[start..];
        }
        assert carry == result[start..] && (WellFormed(result) ==> WellFormed(carry));
        carry := Trim(carry);
        TailOfTail(carry, result, start);
      }
    }
  }
}
