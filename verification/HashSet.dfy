// The tensor hash set: linear probing over keys with a bitset of used slots.
module HashSet {
  import Arith

  const WORD_BITS := 32

  // 1u << k
  function Bit(k: nat): bv32 {
    if k == 0 then 1 else Bit(k - 1) << 1
  }

  // does word w have a bit in common with mask m
  predicate Meets(w: bv32, m: bv32) { w & m != 0 }

  function Joined(w: bv32, m: bv32): bv32 { w | m }

  lemma {:induction false} BitsDisjoint(a: nat, b: nat)
    requires a < b
    ensures !Meets(Bit(a), Bit(b)) && !Meets(Bit(b), Bit(a))
  {
    if a == 0 {
      OddEven(Bit(b - 1));
    } else {
      BitsDisjoint(a - 1, b - 1);
      ShiftBoth(Bit(a - 1), Bit(b - 1));
    }
  }

  lemma OddEven(y: bv32)
    ensures !Meets(1, y << 1) && !Meets(y << 1, 1)
  {
  }

  lemma ShiftBoth(x: bv32, y: bv32)
    requires !Meets(x, y)
    ensures !Meets(x << 1, y << 1) && !Meets(y << 1, x << 1)
  {
  }

  lemma {:induction false} BitNonzero(k: nat)
    requires k < WORD_BITS
    ensures Bit(k) != 0
    decreases WORD_BITS - k
  {
    if k == WORD_BITS - 1 {
      TopBit();
    } else {
      BitNonzero(k + 1);
      ShiftZero();
    }
  }

  lemma ShiftZero()
    ensures (0 as bv32) << 1 == 0
  {
  }

  lemma TopBit()
    ensures Bit(31) == 0x8000_0000
  {
    assert Bit(4) == 0x10;
    assert Bit(8) == 0x100;
    assert Bit(12) == 0x1000;
    assert Bit(16) == 0x1_0000;
    assert Bit(20) == 0x10_0000;
    assert Bit(24) == 0x100_0000;
    assert Bit(28) == 0x1000_0000;
  }

  lemma JoinedMeets(w: bv32, m: bv32)
    requires m != 0
    ensures Meets(Joined(w, m), m)
  {
  }

  lemma JoinedElsewhere(w: bv32, m: bv32, o: bv32)
    requires !Meets(m, o)
    ensures Meets(Joined(w, m), o) <==> Meets(w, o)
  {
  }

  function BitsetSize(n: nat): nat { (n + WORD_BITS - 1) / WORD_BITS }

  predicate TestBit(words: seq<bv32>, i: nat)
    requires i / WORD_BITS < |words|
  {
    Meets(words[i / WORD_BITS], Bit(i % WORD_BITS))
  }

  function WithBit(words: seq<bv32>, i: nat): seq<bv32>
    requires i / WORD_BITS < |words|
  {
    words[i / WORD_BITS := Joined(words[i / WORD_BITS], Bit(i % WORD_BITS))]
  }

  lemma SetBitInWord(w: bv32, a: nat, b: nat)
    requires a < WORD_BITS && b < WORD_BITS
    ensures Meets(Joined(w, Bit(a)), Bit(b)) <==> a == b || Meets(w, Bit(b))
  {
    hide Bit, Meets, Joined;
    if a == b {
      BitNonzero(a);
      JoinedMeets(w, Bit(a));
    } else {
      if a < b { BitsDisjoint(a, b); } else { BitsDisjoint(b, a); }
      JoinedElsewhere(w, Bit(a), Bit(b));
    }
  }

  // Setting bit i sets it and no other.
  lemma SetBitOnly(words: seq<bv32>, i: nat, j: nat)
    requires i / WORD_BITS < |words| && j / WORD_BITS < |words|
    ensures TestBit(WithBit(words, i), j) <==> j == i || TestBit(words, j)
  {
    hide Bit, Meets, Joined;
    if i / WORD_BITS == j / WORD_BITS {
      SetBitInWord(words[i / WORD_BITS], i % WORD_BITS, j % WORD_BITS);
    }
  }

  // ---- the table as a value ----

  datatype Slot = Empty | Full(key: nat)

  type Table = t: seq<Slot> | |t| > 0 witness [Empty]

  // pointers are 16-byte aligned
  function Home(key: nat, n: nat): nat
    requires n > 0
  {
    (key / 16) % n
  }

  // the slot d steps after slot h, and the steps from h to i, in a ring of n slots
  function At(n: nat, h: nat, d: nat): (i: nat)
    requires h < n && d <= n
    ensures i < n
  {
    if h + d < n then h + d else h + d - n
  }

  function Dist(n: nat, h: nat, i: nat): (d: nat)
    requires h < n && i < n
    ensures d < n && At(n, h, d) == i
  {
    if i >= h then i - h else i - h + n
  }

  lemma NextSlot(n: nat, i: nat)
    requires i < n
    ensures (i + 1) % n == At(n, i, 1)
  {
    if i + 1 == n { Arith.DivModUnique(n, n, 1, 0); } else { Arith.DivModUnique(i + 1, n, 0, i + 1); }
  }

  // the slots on the way from the home of key to a slot d steps on hold other keys
  ghost predicate PassedOver(t: Table, key: nat, d: nat)
    requires d <= |t|
  {
    forall e :: 0 <= e < d ==> t[At(|t|, Home(key, |t|), e)].Full? && t[At(|t|, Home(key, |t|), e)].key != key
  }

  ghost predicate Reachable(t: Table) {
    && (forall i, j :: 0 <= i < |t| && 0 <= j < |t| && t[i].Full? && t[i] == t[j] ==> i == j)
    && (forall i :: 0 <= i < |t| && t[i].Full? ==> PassedOver(t, t[i].key, Dist(|t|, Home(t[i].key, |t|), i)))
  }

  ghost predicate Contains(t: Table, key: nat) { exists i :: 0 <= i < |t| && t[i] == Full(key) }

  ghost predicate IsFull(t: Table) { forall i :: 0 <= i < |t| ==> t[i].Full? }

  // probing stopped at an empty slot: the key is nowhere
  lemma StoppedAtEmpty(t: Table, key: nat, d: nat)
    requires Reachable(t) && d < |t| && PassedOver(t, key, d) && t[At(|t|, Home(key, |t|), d)].Empty?
    ensures !Contains(t, key) && !IsFull(t)
  {
    forall i | 0 <= i < |t|
      ensures t[i] != Full(key)
    {
      if t[i].Full? { assert PassedOver(t, t[i].key, Dist(|t|, Home(t[i].key, |t|), i)); }
    }
  }

  // probing went all the way round: the key is nowhere and the table is full
  lemma WentRound(t: Table, key: nat)
    requires PassedOver(t, key, |t|)
    ensures !Contains(t, key) && IsFull(t)
  {
    forall i | 0 <= i < |t|
      ensures t[i].Full? && t[i].key != key
    {
      assert At(|t|, Home(key, |t|), Dist(|t|, Home(key, |t|), i)) == i;
    }
  }

  lemma FilledReachable(t: Table, key: nat, d: nat, t': Table)
    requires Reachable(t) && d < |t| && PassedOver(t, key, d) && t[At(|t|, Home(key, |t|), d)].Empty?
    requires t' == t[At(|t|, Home(key, |t|), d) := Full(key)]
    ensures Reachable(t')
    ensures forall k :: Contains(t', k) <==> k == key || Contains(t, k)
  {
    StoppedAtEmpty(t, key, d);
    var n, p := |t|, At(|t|, Home(key, |t|), d);
    forall i | 0 <= i < n && t'[i].Full?
      ensures PassedOver(t', t'[i].key, Dist(n, Home(t'[i].key, n), i))
    {
      if i != p { assert PassedOver(t, t[i].key, Dist(n, Home(t[i].key, n), i)); }
    }
    forall k ensures Contains(t', k) <==> k == key || Contains(t, k) {
      if Contains(t, k) {
        var i :| 0 <= i < n && t[i] == Full(k);
        assert t'[i] == Full(k);
      }
      if k == key { assert t'[p] == Full(k); }
    }
  }

  // ---- the table in memory ----

  datatype Found = NotFound | FoundAt(index: nat)   // NotFound: the source's "full" value

  datatype Inserted = Aborted | AlreadyExists | InsertedAt(index: nat)

  class HashSet {
    const size: nat
    const used: array<bv32>
    const keys: array<nat>

    ghost predicate Shape()
      reads this, used
    {
      size > 0 && keys.Length == size && used.Length == BitsetSize(size) && used as object != keys
    }

    ghost predicate InUse(i: nat)
      requires Shape() && i < size
      reads this, used
    {
      WordInRange(size, i);
      TestBit(used[..], i)
    }

    // slot i holds the key keys[i] when its bit is set
    ghost function Slots(): (t: Table)
      requires Shape()
      reads this, used, keys
      ensures |t| == size && forall i :: 0 <= i < size ==> t[i] == if InUse(i) then Full(keys[i]) else Empty
    {
      seq(size, i requires 0 <= i < size && Shape() reads this, used, keys =>
        if InUse(i) then Full(keys[i]) else Empty)
    }

    ghost predicate Valid()
      reads this, used, keys
    {
      Shape() && Reachable(Slots())
    }

    constructor (size: nat)
      requires size > 0
      ensures Valid() && this.size == size && fresh(used) && fresh(keys)
      ensures forall k :: !Contains(Slots(), k)
    {
      this.size := size;
      this.used := new bv32[BitsetSize(size)](_ => 0);
      this.keys := new nat[size](_ => 0);
      new;
      forall i | 0 <= i < size ensures !InUse(i) {
        WordInRange(size, i);
        ZeroMeetsNothing(Bit(i % WORD_BITS));
      }
    }

    // Removes all keys.
    method Reset()
      requires Shape()
      modifies used
      ensures Valid() && forall k :: !Contains(Slots(), k)
    {
      forall i | 0 <= i < used.Length { used[i] := 0; }
      forall i | 0 <= i < size ensures !InUse(i) {
        WordInRange(size, i);
        ZeroMeetsNothing(Bit(i % WORD_BITS));
      }
    }

    method BitsetGet(i: nat) returns (b: bool)
      requires Shape() && i < size
      ensures b == InUse(i)
    {
      WordInRange(size, i);
      b := Meets(used[i / WORD_BITS], Bit(i % WORD_BITS));
    }

    // The index of the key, or the slot where it belongs.
    method Find(key: nat) returns (r: Found)
      requires Valid()
      ensures Contains(Slots(), key) ==> r.FoundAt? && r.index < size && Slots()[r.index] == Full(key)
      ensures !Contains(Slots(), key) && !IsFull(Slots()) ==>
                r.FoundAt? && r.index < size && Slots()[r.index].Empty? &&
                exists d :: 0 <= d < size && r.index == At(size, Home(key, size), d) && PassedOver(Slots(), key, d)
      ensures !Contains(Slots(), key) && IsFull(Slots()) ==> r == NotFound
    {
      hide Reachable;
      ghost var t := Slots();
      var h := Home(key, size);
      var i := h;
      ghost var d := 0;
      var u := BitsetGet(i);
      while u && keys[i] != key
        invariant d < size && i == At(size, h, d) && u == InUse(i) && PassedOver(t, key, d)
        decreases size - d
      {
        NextSlot(size, i);
        i := (i + 1) % size;
        d := d + 1;
        if i == h {
          assert d == size;
          WentRound(t, key);
          return NotFound;
        }
        u := BitsetGet(i);
      }
      if !u { StoppedAtEmpty(t, key, d); }
      r := FoundAt(i);
    }

    method ContainsKey(key: nat) returns (b: bool)
      requires Valid()
      ensures b == Contains(Slots(), key)
    {
      hide Reachable, PassedOver;
      var f := Find(key);
      b := f.FoundAt?;
      if f.FoundAt? {
        b := BitsetGet(f.index);
      }
    }

    method Fill(i: nat, key: nat)
      requires Shape() && i < size
      modifies used, keys
      ensures Shape() && Slots() == old(Slots())[i := Full(key)]
    {
      WordInRange(size, i);
      hide Joined, Meets, Bit;
      ghost var words := used[..];
      var w := i / WORD_BITS;
      used[w] := Joined(used[w], Bit(i % WORD_BITS));
      keys[i] := key;
      assert used[..] == words[w := Joined(words[w], Bit(i % WORD_BITS))];
      forall j: nat | j < size ensures InUse(j) <==> j == i || old(InUse(j)) {
        WordInRange(size, j);
        SetBitOnly(words, i, j);
      }
    }

    // Adds a key that is not there; aborts when all slots hold other keys.
    method Insert(key: nat) returns (r: Inserted)
      requires Valid()
      modifies used, keys
      ensures Valid()
      ensures old(Contains(Slots(), key)) ==> r == AlreadyExists && Slots() == old(Slots())
      ensures r == Aborted <==> !old(Contains(Slots(), key)) && IsFull(old(Slots()))
      ensures r == Aborted ==> Slots() == old(Slots())
      ensures r.InsertedAt? ==> r.index < size && old(Slots())[r.index].Empty? &&
                                Slots() == old(Slots())[r.index := Full(key)]
      ensures r.InsertedAt? ==> forall k :: Contains(Slots(), k) <==> k == key || Contains(old(Slots()), k)
    {
      hide Reachable;
      ghost var t := Slots();
      var h := Home(key, size);
      var i := h;
      ghost var d := 0;
      while true
        invariant d < size && i == At(size, h, d) && PassedOver(t, key, d) && Slots() == t
        decreases size - d
      {
        var u := BitsetGet(i);
        if !u {
          StoppedAtEmpty(t, key, d);
          Fill(i, key);
          FilledReachable(t, key, d, Slots());
          return InsertedAt(i);
        }
        if keys[i] == key {
          assert t[i] == Full(key);
          return AlreadyExists;
        }
        NextSlot(size, i);
        i := (i + 1) % size;
        d := d + 1;
        if i == h {
          WentRound(t, key);
          return Aborted;
        }
      }
    }

    // The index of the key, adding it if need be; aborts when all slots hold other keys. The
    // index of a key never changes.
    method FindOrInsert(key: nat) returns (r: Found)
      requires Valid()
      modifies used, keys
      ensures Valid()
      ensures r == NotFound <==> !old(Contains(Slots(), key)) && IsFull(old(Slots()))
      ensures r.FoundAt? ==> r.index < size && Slots() == old(Slots())[r.index := Full(key)]
      ensures r.FoundAt? ==> forall k :: Contains(Slots(), k) <==> k == key || Contains(old(Slots()), k)
      ensures forall i :: 0 <= i < size && old(Slots())[i].Full? ==> Slots()[i] == old(Slots())[i]
    {
      hide Reachable;
      ghost var t := Slots();
      var h := Home(key, size);
      var i := h;
      ghost var d := 0;
      while true
        invariant d < size && i == At(size, h, d) && PassedOver(t, key, d) && Slots() == t
        decreases size - d
      {
        var u := BitsetGet(i);
        if !u {
          StoppedAtEmpty(t, key, d);
          Fill(i, key);
          FilledReachable(t, key, d, Slots());
          return FoundAt(i);
        }
        if keys[i] == key {
          assert t[i] == Full(key) && t[i := Full(key)] == t;
          return FoundAt(i);
        }
        NextSlot(size, i);
        i := (i + 1) % size;
        d := d + 1;
        if i == h {
          WentRound(t, key);
          return NotFound;
        }
      }
    }
  }

  lemma WordInRange(n: nat, i: nat)
    requires i < n
    ensures i / WORD_BITS < BitsetSize(n)
  {
  }

  lemma ZeroMeetsNothing(m: bv32)
    ensures !Meets(0, m)
  {
  }
}
