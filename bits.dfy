/**
 * Bitboard primitives: a bitboard is a 64-bit word, bit `s` standing for square `s`
 * (0 = a8, 7 = h8, 56 = a1, 63 = h1).  Also the xorshift generator that seeds the
 * Zobrist keys.
 */
module Bits {
  /** A square index 0..63; the engine passes squares as u8 shift amounts below 64. */
  type Square = bv6

  /** The reference meaning of a bitboard: the binary digit of weight 2^s. */
  predicate Bit(b: bv64, s: Square) { (b >> s) & 1 == 1 }

  /** The mask of all bits strictly below bit k (k = 64 gives every bit). */
  function Below(k: bv64): bv64
    requires k <= 64
  {
    (1 << k) - 1
  }

  /** Rank index 0 (8th rank) .. 7 (1st rank) and file index 0 (a-file) .. 7 (h-file). */
  function RankOf(s: Square): bv6 { s >> 3 }
  function FileOf(s: Square): bv6 { s & 7 }

  lemma BitMask(b: bv64, s: Square)
    ensures Bit(b, s) <==> b & (1 << s) != 0
  {}

  lemma BitOfSingle(s: Square, t: Square)
    ensures Bit(1 << s, t) <==> t == s
  {}

  lemma BitAnd(a: bv64, b: bv64, s: Square)
    ensures Bit(a & b, s) <==> Bit(a, s) && Bit(b, s)
  {}

  lemma BitOr(a: bv64, b: bv64, s: Square)
    ensures Bit(a | b, s) <==> Bit(a, s) || Bit(b, s)
  {}

  lemma BitNot(a: bv64, s: Square)
    ensures Bit(!a, s) <==> !Bit(a, s)
  {}

  lemma BitXor(a: bv64, b: bv64, s: Square)
    ensures Bit(a ^ b, s) <==> Bit(a, s) != Bit(b, s)
  {}

  /** Two bitboards with the same bits are the same word. */
  lemma Extensional(a: bv64, b: bv64)
    requires forall s: Square :: Bit(a, s) == Bit(b, s)
    ensures a == b
  {
    var d := a ^ b;
    forall s: Square ensures !Bit(d, s) {
      BitXor(a, b, s);
    }
    NoBitsIsZero(d);
    XorZero(a, b);
  }

  lemma XorZero(a: bv64, b: bv64)
    requires a ^ b == 0
    ensures a == b
  {}

  lemma NoBitsIsZero(d: bv64)
    requires forall s: Square :: !Bit(d, s)
    ensures d == 0
  {
    TzSpec(d);
  }

  lemma ZeroHasNoBits(s: Square)
    ensures !Bit(0, s)
  {}

  // ---------------------------------------------------------------------
  // A bitboard as the set of squares it holds
  // ---------------------------------------------------------------------

  /** Every square of the board. */
  const ALL: set<Square> := set i: int | 0 <= i < 64 :: i as Square

  /** A square converted to its index and back is the same square. */
  lemma SquareIndex(t: Square)
    ensures (t as int) as Square == t
  {}

  /** An index below 64 converted to a square and back is the same index. */
  lemma IndexSquare(i: int)
    requires 0 <= i < 64
    ensures (i as Square) as int == i
  {}

  lemma InAll(t: Square)
    ensures t in ALL
  {
    assert t == (t as int) as Square;
  }

  /** The squares whose bits are set. */
  ghost function Squares(b: bv64): set<Square> {
    set t | t in ALL && Bit(b, t)
  }

  lemma InSquares(b: bv64, t: Square)
    ensures t in Squares(b) <==> Bit(b, t)
  {
    InAll(t);
  }

  lemma SquaresZero()
    ensures Squares(0) == {}
  {
    forall t: Square ensures t !in Squares(0) { ZeroHasNoBits(t); }
  }

  lemma SquaresSingle(s: Square)
    ensures Squares(1 << s) == {s}
  {
    var x: bv64 := 1 << s;
    forall t: Square ensures t in Squares(x) <==> t == s {
      InSquares(x, t);
      BitOfSingle(s, t);
    }
  }

  lemma SquaresOr(a: bv64, b: bv64)
    ensures Squares(a | b) == Squares(a) + Squares(b)
  {
    forall t: Square ensures t in Squares(a | b) <==> t in Squares(a) || t in Squares(b) {
      OrAt(a, b, t);
    }
  }

  lemma OrAt(a: bv64, b: bv64, t: Square)
    ensures t in Squares(a | b) <==> t in Squares(a) || t in Squares(b)
  {
    InSquares(a | b, t);
    InSquares(a, t);
    InSquares(b, t);
    BitOr(a, b, t);
  }

  lemma SquaresAnd(a: bv64, b: bv64)
    ensures Squares(a & b) == Squares(a) * Squares(b)
  {
    forall t: Square ensures t in Squares(a & b) <==> t in Squares(a) && t in Squares(b) {
      AndAt(a, b, t);
    }
  }

  lemma AndAt(a: bv64, b: bv64, t: Square)
    ensures t in Squares(a & b) <==> t in Squares(a) && t in Squares(b)
  {
    InSquares(a & b, t);
    InSquares(a, t);
    InSquares(b, t);
    BitAnd(a, b, t);
  }

  lemma SquaresNot(a: bv64)
    ensures Squares(!a) == ALL - Squares(a)
  {
    forall t: Square ensures t in Squares(!a) <==> t in ALL && t !in Squares(a) {
      NotAt(a, t);
    }
  }

  lemma NotAt(a: bv64, t: Square)
    ensures t in Squares(!a) <==> t in ALL && t !in Squares(a)
  {
    InSquares(!a, t);
    InSquares(a, t);
    BitNot(a, t);
  }

  /** Different words hold different sets of squares. */
  lemma SquaresInjective(a: bv64, b: bv64)
    requires Squares(a) == Squares(b)
    ensures a == b
  {
    forall t: Square ensures Bit(a, t) == Bit(b, t) {
      InSquares(a, t);
      InSquares(b, t);
    }
    Extensional(a, b);
  }

  // ---------------------------------------------------------------------
  // get_bit / test_bit / set_bit / clear_bit
  // ---------------------------------------------------------------------

  /** `get_bit`: the board masked down to the one bit of square s. */
  function GetBit(b: bv64, s: Square): (r: bv64)
    ensures r != 0 <==> Bit(b, s)
    ensures r == 0 || r == 1 << s
  {
    BitMask(b, s);
    b & (1 << s)
  }

  /** `test_bit`: whether square s is on the board. */
  function TestBit(b: bv64, s: Square): (r: bool)
    ensures r <==> Bit(b, s)
  {
    GetBit(b, s) != 0
  }

  lemma SetBitAt(b: bv64, s: Square, t: Square)
    ensures Bit(b | (1 << s), t) <==> t == s || Bit(b, t)
  {}

  lemma ClearBitAt(b: bv64, s: Square, t: Square)
    ensures Bit(b & !(1 << s), t) <==> t != s && Bit(b, t)
  {}

  /** `set_bit`: square s is on the result and every other bit is as it was. */
  function SetBit(b: bv64, s: Square): (r: bv64)
    ensures Bit(r, s)
    ensures r & !(1 << s) == b & !(1 << s)
  {
    SetBitAt(b, s, s);
    b | (1 << s)
  }

  /** `clear_bit`: square s is off the result and every other bit is as it was. */
  function ClearBit(b: bv64, s: Square): (r: bv64)
    ensures !Bit(r, s)
    ensures r | (1 << s) == b | (1 << s)
  {
    ClearBitAt(b, s, s);
    b & !(1 << s)
  }

  lemma SetBitOther(b: bv64, s: Square, t: Square)
    ensures Bit(SetBit(b, s), t) <==> t == s || Bit(b, t)
  {
    SetBitAt(b, s, t);
  }

  lemma ClearBitOther(b: bv64, s: Square, t: Square)
    ensures Bit(ClearBit(b, s), t) <==> t != s && Bit(b, t)
  {
    ClearBitAt(b, s, t);
  }

  lemma SetBitIdempotent(b: bv64, s: Square)
    ensures SetBit(SetBit(b, s), s) == SetBit(b, s)
  {}

  /** Clearing a square that was just added restores the board. */
  lemma ClearAfterSet(b: bv64, s: Square)
    requires !Bit(b, s)
    ensures ClearBit(SetBit(b, s), s) == b
  {}

  /** Setting a square that was just removed restores the board. */
  lemma SetAfterClear(b: bv64, s: Square)
    requires Bit(b, s)
    ensures SetBit(ClearBit(b, s), s) == b
  {}

  lemma SquaresSetBit(b: bv64, s: Square)
    ensures Squares(SetBit(b, s)) == Squares(b) + {s}
  {
    forall t: Square ensures t in Squares(SetBit(b, s)) <==> t in Squares(b) || t == s {
      SetAt(b, s, t);
    }
  }

  lemma SetAt(b: bv64, s: Square, t: Square)
    ensures t in Squares(SetBit(b, s)) <==> t in Squares(b) || t == s
  {
    InSquares(SetBit(b, s), t);
    InSquares(b, t);
    SetBitOther(b, s, t);
  }

  lemma SquaresClearBit(b: bv64, s: Square)
    ensures Squares(ClearBit(b, s)) == Squares(b) - {s}
  {
    forall t: Square ensures t in Squares(ClearBit(b, s)) <==> t in Squares(b) && t != s {
      ClearAt(b, s, t);
    }
  }

  lemma ClearAt(b: bv64, s: Square, t: Square)
    ensures t in Squares(ClearBit(b, s)) <==> t in Squares(b) && t != s
  {
    InSquares(ClearBit(b, s), t);
    InSquares(b, t);
    ClearBitOther(b, s, t);
  }

  // ---------------------------------------------------------------------
  // Population count
  // ---------------------------------------------------------------------

  /**
   * The number of set bits, counted by removing the lowest set bit until the
   * board is empty (each removal takes away exactly one square: LowestCleared).
   */
  function PopCount(b: bv64): nat
    decreases b
  {
    if b == 0 then 0 else 1 + PopCount(b & (b - 1))
  }

  /** `count_bits`: Kernighan's loop, clearing the lowest set bit until the board is empty. */
  method CountBits(b: bv64) returns (count: nat)
    ensures count == PopCount(b)
    ensures count == 0 <==> b == 0
  {
    count := 0;
    var temp := b;
    while temp != 0
      invariant count + PopCount(temp) == PopCount(b)
      invariant count == 0 || b != 0
      decreases temp
    {
      temp := temp & (temp - 1);
      count := count + 1;
    }
  }

  /** A single square has population count one. */
  lemma PopCountSingle(s: Square)
    ensures PopCount(1 << s) == 1
  {
    SingleHasNoLower(s);
  }

  lemma SingleHasNoLower(s: Square)
    ensures ((1 as bv64) << s) & ((1 << s) - 1) == 0
  {}

  // ---------------------------------------------------------------------
  // Lowest set bit
  // ---------------------------------------------------------------------

  /** The lowest set bit of b, isolated (zero for the empty board). */
  function LowestBit(b: bv64): bv64 { b & (0 - b) }

  /** The index of a single-bit word, read off by halving. */
  function SingleIndex(x: bv64): bv64
  {
    (if x & 0xFFFF_FFFF_0000_0000 != 0 then 32 else 0) |
    (if x & 0xFFFF_0000_FFFF_0000 != 0 then 16 else 0) |
    (if x & 0xFF00_FF00_FF00_FF00 != 0 then 8 else 0) |
    (if x & 0xF0F0_F0F0_F0F0_F0F0 != 0 then 4 else 0) |
    (if x & 0xCCCC_CCCC_CCCC_CCCC != 0 then 2 else 0) |
    (if x & 0xAAAA_AAAA_AAAA_AAAA != 0 then 1 else 0)
  }

  /** `trailing_zeros` of a 64-bit word. */
  function Tz(b: bv64): bv64
  {
    if b == 0 then 64 else SingleIndex(LowestBit(b))
  }

  lemma LowestBitNonZero(b: bv64)
    requires b != 0
    ensures LowestBit(b) != 0
  {}

  lemma LowestBitSingle(b: bv64)
    ensures LowestBit(b) & (LowestBit(b) - 1) == 0
  {}

  lemma LowestBitNothingBelow(b: bv64)
    ensures b & (LowestBit(b) - 1) == 0
  {}

  lemma LowestBitPresent(b: bv64)
    ensures b & LowestBit(b) == LowestBit(b)
  {}

  lemma SingleIndexOfPower(x: bv64)
    requires x != 0 && x & (x - 1) == 0
    ensures SingleIndex(x) < 64 && 1 << SingleIndex(x) == x
  {}

  lemma LowestBitIsTz(b: bv64)
    requires b != 0
    ensures Tz(b) < 64 && LowestBit(b) == 1 << Tz(b)
  {
    LowestBitNonZero(b);
    LowestBitSingle(b);
    SingleIndexOfPower(LowestBit(b));
  }

  lemma TzSpec(b: bv64)
    ensures Tz(b) <= 64
    ensures Tz(b) == 64 <==> b == 0
    ensures b & Below(Tz(b)) == 0
    ensures Tz(b) < 64 ==> Bit(b, Tz(b) as Square)
  {
    if b != 0 {
      LowestBitIsTz(b);
      LowestBitNothingBelow(b);
      LowestBitPresent(b);
      BitMask(b, Tz(b) as Square);
    }
  }

  lemma NoBitBelow(b: bv64, k: bv64, t: Square)
    requires k <= 64 && b & Below(k) == 0 && t as bv64 < k
    ensures !Bit(b, t)
  {}

  /** `get_lsb`: the lowest occupied square, or 64 for the empty board. */
  function GetLsb(b: bv64): (r: bv64)
    ensures r <= 64
    ensures r == 64 <==> b == 0
    ensures r < 64 ==> Bit(b, r as Square)
    ensures forall t: Square | t as bv64 < r :: !Bit(b, t)
  {
    TzSpec(b);
    TzNothingBelow(b);
    Tz(b)
  }

  lemma TzNothingBelow(b: bv64)
    ensures forall t: Square | t as bv64 < Tz(b) :: !Bit(b, t)
  {
    TzSpec(b);
    NoBitBelowAll(b, Tz(b));
  }

  lemma NoBitBelowAll(b: bv64, k: bv64)
    requires k <= 64 && b & Below(k) == 0
    ensures forall t: Square | t as bv64 < k :: !Bit(b, t)
  {
    forall t: Square | t as bv64 < k ensures !Bit(b, t) { NoBitBelow(b, k, t); }
  }

  lemma ClearLowest(b: bv64)
    ensures b & (b - 1) == b & !LowestBit(b)
  {}

  lemma LowestCleared(b: bv64)
    requires b != 0
    ensures b & (b - 1) == ClearBit(b, Tz(b) as Square)
  {
    ClearLowest(b);
    LowestBitIsTz(b);
    ShiftNarrow(Tz(b));
  }

  lemma ShiftNarrow(k: bv64)
    requires k < 64
    ensures (1 as bv64) << (k as Square) == 1 << k
  {}

  /** The population count is the number of occupied squares. */
  lemma {:induction false} PopCountIsSize(b: bv64)
    ensures PopCount(b) == |Squares(b)|
    decreases b
  {
    if b == 0 {
      SquaresZero();
    } else {
      var rest := b & (b - 1);
      var low := KernighanStep(b);
      PopCountIsSize(rest);
      assert Squares(b) == Squares(rest) + {low};
    }
  }

  lemma ClearLowestSmaller(b: bv64)
    requires b != 0
    ensures b & (b - 1) < b
  {}

  /** One step of Kernighan's loop removes exactly one occupied square. */
  lemma KernighanStep(b: bv64) returns (low: Square)
    requires b != 0
    ensures b & (b - 1) < b
    ensures low in Squares(b) && Squares(b & (b - 1)) == Squares(b) - {low}
  {
    low := Tz(b) as Square;
    ClearLowestSmaller(b);
    LowestCleared(b);
    TzSpec(b);
    InSquares(b, low);
    SquaresClearBit(b, low);
  }

  /** x is the least member of S in square order. */
  ghost predicate IsLeast(S: set<Square>, x: Square)
  {
    x in S && forall u | u in S :: x <= u
  }

  lemma SquareLessTrans(a: Square, b: Square, c: Square)
    requires a < b && b <= c
    ensures a <= c
  {
  }

  lemma SquareTotal(a: Square, b: Square)
    requires !(a < b)
    ensures b <= a
  {
  }

  lemma SomeMember(S: set<Square>)
    requires S != {}
    ensures exists y :: y in S
  {
    if forall y :: y !in S {
      NoMemberEmpty(S);
    }
  }

  lemma NoMemberEmpty(S: set<Square>)
    requires forall y :: y !in S
    ensures S == {}
  {
    assert forall y :: y in S <==> y in {};
  }

  lemma LeastAlone(S: set<Square>, y: Square)
    requires y in S && S - {y} == {}
    ensures IsLeast(S, y)
  {
    forall u | u in S ensures y <= u {
      if u != y { assert u in S - {y}; }
    }
  }

  lemma LeastAdded(S: set<Square>, y: Square, x: Square)
    requires y in S && IsLeast(S - {y}, x) && y < x
    ensures IsLeast(S, y)
  {
    forall u | u in S ensures y <= u {
      if u != y {
        assert u in S - {y};
        SquareLessTrans(y, x, u);
      }
    }
  }

  lemma LeastKept(S: set<Square>, y: Square, x: Square)
    requires y in S && IsLeast(S - {y}, x) && !(y < x)
    ensures IsLeast(S, x)
  {
    SquareTotal(y, x);
    forall u | u in S ensures x <= u {
      if u != y { assert u in S - {y}; }
    }
  }

  /** Every non-empty set of squares has a least member. */
  lemma {:induction false} HasLeast(S: set<Square>)
    requires S != {}
    ensures exists x :: IsLeast(S, x)
    decreases |S|
  {
    SomeMember(S);
    var y :| y in S;
    if S - {y} == {} {
      LeastAlone(S, y);
    } else {
      HasLeast(S - {y});
      var x :| IsLeast(S - {y}, x);
      if y < x {
        LeastAdded(S, y, x);
      } else {
        LeastKept(S, y, x);
      }
    }
  }

  ghost function Least(S: set<Square>): (low: Square)
    requires S != {}
    ensures low in S && forall u | u in S :: low <= u
  {
    HasLeast(S);
    var x :| IsLeast(S, x);
    x
  }

  /** The least member of S is the one no member lies below. */
  lemma LeastUnique(S: set<Square>, x: Square)
    requires x in S && forall u | u in S :: x <= u
    ensures Least(S) == x
  {
  }

  /** No member of the mask lies below a bound k under which the mask is empty. */
  lemma NothingUnder(m: bv64, k: bv64, u: Square)
    requires k <= 64 && m & Below(k) == 0 && u in Squares(m)
    ensures k <= u as bv64
  {
    InSquares(m, u);
    if u as bv64 < k {
      NoBitBelow(m, k, u);
    }
  }

  /** A bound below 64 read as a square and back is unchanged, and orders the same way. */
  lemma NarrowBound(k: bv64, u: Square)
    requires k < 64
    ensures (k as Square) as bv64 == k
    ensures k <= u as bv64 <==> k as Square <= u
  {
  }

  /** `get_lsb` of a non-empty mask is a square index. */
  lemma LsbInRange(m: bv64)
    requires m != 0
    ensures GetLsb(m) < 64
  {
  }

  /** `get_lsb` of a non-empty mask is a member of it. */
  lemma LsbMember(m: bv64)
    requires m != 0
    ensures GetLsb(m) < 64 && GetLsb(m) as Square in Squares(m)
  {
    InSquares(m, GetLsb(m) as Square);
  }

  /** No member of the mask lies below `get_lsb`. */
  lemma LsbBelow(m: bv64, u: Square)
    requires m != 0 && u in Squares(m)
    ensures GetLsb(m) as Square <= u
  {
    var k := GetLsb(m);
    TzSpec(m);
    NothingUnder(m, k, u);
    NarrowBound(k, u);
  }

  lemma LsbLeast(m: bv64)
    requires m != 0
    ensures forall u | u in Squares(m) :: GetLsb(m) as Square <= u
  {
    forall u | u in Squares(m) ensures GetLsb(m) as Square <= u {
      LsbBelow(m, u);
    }
  }

  /** `get_lsb` of a non-empty mask is its least square. */
  lemma LsbIsLeast(b: bv64)
    requires b != 0
    ensures GetLsb(b) < 64 && Squares(b) != {} && Least(Squares(b)) == GetLsb(b) as Square
  {
    LsbMember(b);
    LsbLeast(b);
    LeastUnique(Squares(b), GetLsb(b) as Square);
  }

  /** `get_lsb` is 64 or more exactly for the empty mask, and otherwise gives its least square. */
  lemma LsbOrNone(b: bv64)
    ensures GetLsb(b) >= 64 <==> b == 0
    ensures GetLsb(b) < 64 ==> Squares(b) != {} && Least(Squares(b)) == GetLsb(b) as Square
  {
    if b != 0 {
      LsbIsLeast(b);
    }
  }

  /** Clearing the lowest set bit removes exactly the `get_lsb` square. */
  lemma LsbRemoved(b: bv64)
    requires b != 0
    ensures GetLsb(b) < 64
    ensures Squares(b & (b - 1)) == Squares(b) - {GetLsb(b) as Square}
    ensures PopCount(b & (b - 1)) + 1 == PopCount(b)
  {
    LowestCleared(b);
    SquaresClearBit(b, Tz(b) as Square);
  }

  /**
   * `pop_lsb`: returns the lowest occupied square (the square `get_lsb`
   * names) and the board with exactly that square removed.
   */
  method PopLsb(b: bv64) returns (lsb: Square, rest: bv64)
    requires b != 0
    ensures Squares(b) != {} && lsb == Least(Squares(b))
    ensures Squares(rest) == Squares(b) - {lsb}
    ensures PopCount(rest) + 1 == PopCount(b)
  {
    var l := GetLsb(b);
    LsbIsLeast(b);
    LsbRemoved(b);
    lsb := l as Square;
    rest := b & (b - 1);
  }
}
