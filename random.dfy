/** The 32-bit xorshift generator that fills the Zobrist key tables. */
module Random {
  function XorLeft13(x: bv32): bv32 { x ^ (x << 13) }
  function XorRight17(x: bv32): bv32 { x ^ (x >> 17) }
  function XorLeft5(x: bv32): bv32 { x ^ (x << 5) }

  /** One xorshift step: shifts 13 left, 17 right, 5 left. */
  function Xorshift(x: bv32): bv32
  {
    XorLeft5(XorRight17(XorLeft13(x)))
  }

  /** The state after n steps. */
  function Iterate(x: bv32, n: nat): bv32
  {
    if n == 0 then x else Xorshift(Iterate(x, n - 1))
  }

  /** The low 16 bits of a 32-bit draw, widened. */
  function Low16(x: bv32): bv64 { (x & 0xFFFF) as bv64 }

  /** Four draws packed from the least significant 16-bit chunk upwards. */
  function Pack(n1: bv32, n2: bv32, n3: bv32, n4: bv32): bv64
  {
    Low16(n1) | (Low16(n2) << 16) | (Low16(n3) << 32) | (Low16(n4) << 48)
  }

  lemma Left13NonZero(x: bv32)
    requires x != 0
    ensures XorLeft13(x) != 0
  {}

  lemma Right17NonZero(x: bv32)
    requires x != 0
    ensures XorRight17(x) != 0
  {}

  lemma Left5NonZero(x: bv32)
    requires x != 0
    ensures XorLeft5(x) != 0
  {}

  /** A non-zero state never becomes zero, so the key stream never degenerates. */
  lemma XorshiftNonZero(x: bv32)
    requires x != 0
    ensures Xorshift(x) != 0
  {
    Left13NonZero(x);
    Right17NonZero(XorLeft13(x));
    Left5NonZero(XorRight17(XorLeft13(x)));
  }

  lemma {:induction false} IterateNonZero(x: bv32, n: nat)
    requires x != 0
    ensures Iterate(x, n) != 0
  {
    if n > 0 {
      IterateNonZero(x, n - 1);
      XorshiftNonZero(Iterate(x, n - 1));
    }
  }

  lemma PackChunk0(n1: bv32, n2: bv32, n3: bv32, n4: bv32)
    ensures Pack(n1, n2, n3, n4) & 0xFFFF == Low16(n1)
  {}

  lemma PackChunk1(n1: bv32, n2: bv32, n3: bv32, n4: bv32)
    ensures (Pack(n1, n2, n3, n4) >> 16) & 0xFFFF == Low16(n2)
  {}

  lemma PackChunk2(n1: bv32, n2: bv32, n3: bv32, n4: bv32)
    ensures (Pack(n1, n2, n3, n4) >> 32) & 0xFFFF == Low16(n3)
  {}

  lemma PackChunk3(n1: bv32, n2: bv32, n3: bv32, n4: bv32)
    ensures Pack(n1, n2, n3, n4) >> 48 == Low16(n4)
  {}

  /** The generator state the engine threads through `&mut u32`. */
  class RandomState {
    var state: bv32

    constructor (seed: bv32)
      ensures state == seed
    {
      state := seed;
    }

    /** `get_pseudorandom_number_u32`: advance the state one step and return it. */
    method NextU32() returns (number: bv32)
      modifies this
      ensures number == Xorshift(old(state)) && state == number
      ensures old(state) != 0 ==> number != 0
    {
      var n := state;
      n := XorLeft13(n);
      n := XorRight17(n);
      n := XorLeft5(n);
      state := n;
      number := n;
      if old(state) != 0 {
        XorshiftNonZero(old(state));
      }
    }

    /** `get_pseudorandom_number_u64`: four steps, low 16 bits of each, least significant first. */
    method NextU64() returns (number: bv64)
      modifies this
      ensures state == Iterate(old(state), 4)
      ensures number == Pack(Iterate(old(state), 1), Iterate(old(state), 2),
                             Iterate(old(state), 3), Iterate(old(state), 4))
    {
      var a := NextU32();
      var b := NextU32();
      var c := NextU32();
      var d := NextU32();
      assert Iterate(old(state), 1) == a;
      assert Iterate(old(state), 2) == b;
      assert Iterate(old(state), 3) == c;
      assert Iterate(old(state), 4) == d;
      number := Pack(a, b, c, d);
    }
  }
}
