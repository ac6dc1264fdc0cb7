/** The key bit vector: eight 32-bit words, one bit per key code. */
module PS2KeyVector {

  type code = bv32

  const NUM_KEYCODES: code := 256
  const NUNITS: nat := 8

  /** The macros' word index and bit test. */
  function Unit(n: code): (u: nat)
    requires n < NUM_KEYCODES
    ensures u < NUNITS
  {
    assert n >> 5 < 8;
    (n >> 5) as nat
  }

  predicate Bit(w: bv32, n: code) { w & (1 << (n & 31)) != 0 }

  function WithBit(w: bv32, n: code): bv32 { w | (1 << (n & 31)) }

  function WithoutBit(w: bv32, n: code): bv32 { w & !(1 << (n & 31)) }

  lemma DistinctMasks(i: bv32, j: bv32)
    requires i < 32 && j < 32
    ensures (1 as bv32) << i != 0
    ensures i != j ==> ((1 as bv32) << i) & (1 << j) == 0
  {
  }

  lemma OrSets(w: bv32, a: bv32)
    ensures (w | a) & a == a
  {
  }

  lemma AndNotClears(w: bv32, a: bv32)
    ensures (w & !a) & a == 0
  {
  }

  lemma OrKeeps(w: bv32, a: bv32, b: bv32)
    requires a & b == 0
    ensures (w | a) & b == w & b
  {
  }

  lemma AndNotKeeps(w: bv32, a: bv32, b: bv32)
    requires a & b == 0
    ensures (w & !a) & b == w & b
  {
  }

  lemma SetBit(w: bv32, n: code, m: code)
    ensures Bit(WithBit(w, n), n)
    ensures n & 31 != m & 31 ==> (Bit(WithBit(w, n), m) <==> Bit(w, m))
  {
    DistinctMasks(n & 31, m & 31);
    OrSets(w, 1 << (n & 31));
    if n & 31 != m & 31 { OrKeeps(w, 1 << (n & 31), 1 << (m & 31)); }
  }

  lemma ClearBit(w: bv32, n: code, m: code)
    ensures !Bit(WithoutBit(w, n), n)
    ensures n & 31 != m & 31 ==> (Bit(WithoutBit(w, n), m) <==> Bit(w, m))
  {
    DistinctMasks(n & 31, m & 31);
    AndNotClears(w, 1 << (n & 31));
    if n & 31 != m & 31 { AndNotKeeps(w, 1 << (n & 31), 1 << (m & 31)); }
  }

  lemma ZeroBit(n: code)
    ensures !Bit(0, n)
  {
  }

  /** Different codes have a different word or a different bit. */
  lemma Separate(n: code, m: code)
    requires n < NUM_KEYCODES && m < NUM_KEYCODES
    ensures Unit(n) == Unit(m) && n & 31 == m & 31 ==> n == m
  {
    UnitEqual(n, m);
    assert n >> 5 == m >> 5 && n & 31 == m & 31 ==> n == m;
  }

  lemma UnitEqual(n: code, m: code)
    requires n < NUM_KEYCODES && m < NUM_KEYCODES
    ensures Unit(n) == Unit(m) ==> n >> 5 == m >> 5
  {
  }

  class KeyVector {
    const words: array<bv32>

    ghost predicate Valid() { words.Length == NUNITS }

    constructor ()
      ensures Valid() && Down() == iset{} && fresh(words)
    {
      words := new bv32[NUNITS](_ => 0);
      new;
      hide Bit;
      forall n: code ensures !Bit(0, n) { ZeroBit(n); }
      assert Down() == iset{};
    }

    predicate IsKeyDown(n: code)
      requires Valid() && n < NUM_KEYCODES
      reads words
    {
      Bit(words[Unit(n)], n)
    }

    /** The codes whose bit is set. */
    ghost function Down(): iset<code>
      requires Valid()
      reads words
    {
      iset n: code | n < NUM_KEYCODES && IsKeyDown(n)
    }

    method KeyDown(n: code)
      requires Valid() && n < NUM_KEYCODES
      modifies words
      ensures Down() == old(Down()) + iset{n}
    {
      hide Bit, WithBit, Unit;
      words[Unit(n)] := WithBit(words[Unit(n)], n);
      forall m: code | m < NUM_KEYCODES ensures IsKeyDown(m) <==> m == n || old(IsKeyDown(m)) {
        Separate(n, m);
        SetBit(old(words[Unit(n)]), n, m);
      }
    }

    method KeyUp(n: code)
      requires Valid() && n < NUM_KEYCODES
      modifies words
      ensures Down() == old(Down()) - iset{n}
    {
      hide Bit, WithoutBit, Unit;
      words[Unit(n)] := WithoutBit(words[Unit(n)], n);
      forall m: code | m < NUM_KEYCODES ensures IsKeyDown(m) <==> m != n && old(IsKeyDown(m)) {
        Separate(n, m);
        ClearBit(old(words[Unit(n)]), n, m);
      }
    }

    /** All keys up. */
    method Clear()
      requires Valid()
      modifies words
      ensures Down() == iset{}
    {
      hide Bit;
      for i := 0 to NUNITS
        invariant forall j :: 0 <= j < i ==> words[j] == 0
      {
        words[i] := 0;
      }
      forall n: code ensures !Bit(0, n) { ZeroBit(n); }
      assert Down() == iset{};
    }
  }
}
