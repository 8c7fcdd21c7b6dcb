// `set_occupancy` from the attack module: the index-th subset of a
// relevance mask, used to enumerate every blocker configuration of a
// slider square when its attack table is filled.

module Occupancy {
  import opened Bits

  /** A 32-bit counter after k increments from zero. */
  function Count32(k: nat): bv32
    decreases k
  {
    if k == 0 then 0 else Count32(k - 1) + 1
  }

  /** Up to 32 increments do not wrap the counter. */
  lemma {:induction false} Count32Exact(k: nat)
    requires k <= 32
    ensures Count32(k) as int == k
  {
    if k > 0 {
      Count32Exact(k - 1);
      CountNoWrap(Count32(k - 1));
    }
  }

  lemma CountNoWrap(c: bv32)
    requires c as int < 32
    ensures (c + 1) as int == c as int + 1
  {
  }

  /** Counters of up to 32 increments are equal only after as many increments. */
  lemma Count32Inj(a: nat, b: nat)
    requires a <= 32 && b <= 32 && Count32(a) == Count32(b)
    ensures a == b
  {
    Count32Exact(a);
    Count32Exact(b);
  }

  /** A bv32 value is the counter after that many increments. */
  lemma {:induction false} Count32Of(x: bv32)
    requires x <= 32
    ensures Count32(x as int) == x
    decreases x
  {
    if x != 0 {
      Count32Of(x - 1);
      BitPosition(x);
    }
  }

  lemma BitPosition(i: bv32)
    requires 0 < i <= 32
    ensures (i - 1) as int == i as int - 1
  {
  }

  /** The counter grows strictly over its first 32 increments. */
  lemma CountLess(a: nat, b: nat)
    requires a < b <= 32
    ensures Count32(a) < Count32(b)
  {
    Count32Exact(a);
    Count32Exact(b);
  }

  lemma CountBelow32(k: nat)
    requires k < 32
    ensures Count32(k) < 32
  {
    Count32Exact(k);
  }

  /** The engine's test of bit i of a 32-bit index: index & (1 << i) != 0. */
  predicate IndexHas(index: bv32, i: bv32)
    requires i < 32
  {
    index & (1 << i) != 0
  }

  /** Bit k of x, for a bit position k counted as a number (false from k = 32 on). */
  predicate IndexBit(x: bv32, k: nat)
  {
    k < 32 && Count32(k) < 32 && IndexHas(x, Count32(k))
  }

  /**
   * The squares picked from S when its members are visited from the least
   * up, the j-th visited one standing for bit k + j of index, until bit
   * position n is reached; a member is kept when its bit is set.
   */
  ghost function Picked(index: bv32, k: nat, n: nat, S: set<Square>): set<Square>
    decreases |S|
  {
    if k >= n || S == {} then {}
    else
      var low := Least(S);
      (if IndexBit(index, k) then {low} else {}) + Picked(index, k + 1, n, S - {low})
  }

  /** How many members of S lie below t: t is the (Lower)-th least member, counting from 0. */
  ghost function Lower(S: set<Square>, t: Square): nat {
    |set u | u in S && u < t|
  }

  /** Removing the least member lowers the position of every other member by one. */
  lemma LowerStep(S: set<Square>, t: Square)
    requires S != {}
    ensures Lower(S, Least(S)) == 0
    ensures t in S && t != Least(S) ==> Lower(S, t) == Lower(S - {Least(S)}, t) + 1
  {
    var low := Least(S);
    var none := set u | u in S && u < low;
    assert none == {} by {
      forall u | u in none ensures false { }
    }
    if t in S && t != low {
      var below := set u | u in S && u < t;
      var below' := set u | u in S - {low} && u < t;
      assert below' == below - {low};
      assert low in below;
    }
  }

  /**
   * A square is picked exactly when it is in S, it is the j-th least
   * member for some j with k + j below n, and bit k + j of the index is set.
   */
  lemma {:induction false} PickedMembers(index: bv32, k: nat, n: nat, S: set<Square>, t: Square)
    ensures t in Picked(index, k, n, S) <==>
      t in S && k + Lower(S, t) < n && IndexBit(index, k + Lower(S, t))
    decreases |S|
  {
    if k >= n {
    } else if S == {} {
    } else {
      LowerStep(S, t);
      PickedMembers(index, k + 1, n, S - {Least(S)}, t);
    }
  }

  /** The set bits of a mask number its popcount. */
  lemma SquaresCount(m: bv64)
    ensures |Squares(m)| == PopCount(m)
  {
    PopCountIsSize(m);
  }

  /** Setting a square's bit under a condition adds that square under the same condition. */
  lemma SetWhen(a: bv64, a': bv64, sq: Square, c: bool)
    requires a' == if c then SetBit(a, sq) else a
    ensures Squares(a') == Squares(a) + (if c then {sq} else {})
  {
    if c {
      SquaresSetBit(a, sq);
    }
  }

  lemma AtMost32(x: bv32)
    requires x <= 32
    ensures x as int <= 32
  {
  }

  /** The engine's test of bit i of the index, with i counted up k times. */
  lemma TestIsIndexBit(index: bv32, i: bv32, k: nat)
    requires k < 32 && i < 32 && i == Count32(k)
    ensures IndexHas(index, i) == IndexBit(index, k)
  {
  }

  /**
   * The loop state of `set_occupancy` after k iterations: the counter i
   * has counted k, the mask has lost its k least squares, and the
   * occupancy together with what remains to be picked is the final answer.
   */
  ghost predicate Visited(index: bv32, bitsInMask: bv32, attackMask: bv64, n: nat,
                          k: nat, i: bv32, mask: bv64, occupancy: bv64)
  {
    bitsInMask == Count32(n) && n <= 32 && n <= PopCount(attackMask) &&
    k <= n && i == Count32(k) &&
    PopCount(mask) + k == PopCount(attackMask) &&
    Squares(occupancy) + Picked(index, k, n, Squares(mask)) == Picked(index, 0, n, Squares(attackMask))
  }

  /** Before the first iteration nothing is picked and nothing visited. */
  lemma VisitStart(index: bv32, bitsInMask: bv32, attackMask: bv64)
    requires bitsInMask as int <= PopCount(attackMask) && bitsInMask <= 32
    ensures Visited(index, bitsInMask, attackMask, bitsInMask as int, 0, 0, attackMask, 0)
  {
    Count32Of(bitsInMask);
    AtMost32(bitsInMask);
    SquaresZero();
    var all := Picked(index, 0, bitsInMask as int, Squares(attackMask));
    assert {} + all == all;
  }

  /** While the counter is below bits_in_mask, the mask still has a square to visit. */
  lemma VisitMore(index: bv32, bitsInMask: bv32, attackMask: bv64, n: nat,
                  k: nat, i: bv32, mask: bv64, occupancy: bv64)
    requires Visited(index, bitsInMask, attackMask, n, k, i, mask, occupancy)
    ensures i < bitsInMask ==> k < n && i < 32 && mask != 0
    ensures !(i < bitsInMask) ==> k == n
  {
    if i < bitsInMask {
      assert k != n;
      CountBelow32(k);
      assert PopCount(mask) > 0;
      PopCountZero(mask);
    } else if k < n {
      CountLess(k, n);
      assert false;
    }
  }

  lemma PopCountZero(m: bv64)
    requires PopCount(m) > 0
    ensures m != 0
  {
  }

  /** One iteration: pop the least square, and set it in the occupancy when the index bit is set. */
  lemma VisitStep(index: bv32, bitsInMask: bv32, attackMask: bv64, n: nat,
                  k: nat, i: bv32, mask: bv64, occupancy: bv64,
                  square: Square, mask': bv64, occupancy': bv64)
    requires Visited(index, bitsInMask, attackMask, n, k, i, mask, occupancy)
    requires i < bitsInMask && i < 32
    requires Squares(mask) != {} && square == Least(Squares(mask))
    requires Squares(mask') == Squares(mask) - {square} && PopCount(mask') + 1 == PopCount(mask)
    requires occupancy' == if IndexHas(index, i) then SetBit(occupancy, square) else occupancy
    ensures Visited(index, bitsInMask, attackMask, n, k + 1, i + 1, mask', occupancy')
  {
    VisitMore(index, bitsInMask, attackMask, n, k, i, mask, occupancy);
    TestIsIndexBit(index, i, k);
    SetWhen(occupancy, occupancy', square, IndexBit(index, k));
    PickStep(Squares(occupancy), Squares(occupancy'), Squares(mask), Squares(mask'), index, k, n);
  }

  /** One iteration of `set_occupancy` keeps the picked squares. */
  lemma PickStep(occ: set<Square>, occ': set<Square>, S: set<Square>, S': set<Square>, index: bv32, k: nat, n: nat)
    requires S != {} && S' == S - {Least(S)} && k < n
    requires occ' == occ + (if IndexBit(index, k) then {Least(S)} else {})
    ensures occ' + Picked(index, k + 1, n, S') == occ + Picked(index, k, n, S)
  {
  }

  /**
   * `set_occupancy`: visits the lowest bits_in_mask squares of the mask
   * from the lowest up (get_lsb, then clear_bit of that square, which is
   * pop_lsb) and keeps the i-th of them when bit i of index is set. The
   * engine requires bits_in_mask to be at most the mask's popcount
   * (otherwise get_lsb yields 64 and clearing bit 64 overflows) and at
   * most 32 (the width of index, beyond which the shift overflows).
   */
  method SetOccupancy(index: bv32, bitsInMask: bv32, attackMask: bv64) returns (occupancy: bv64)
    requires bitsInMask as int <= PopCount(attackMask) && bitsInMask <= 32
    ensures Squares(occupancy) == Picked(index, 0, bitsInMask as int, Squares(attackMask))
  {
    occupancy := 0;
    var mask := attackMask;
    ghost var n: nat := bitsInMask as int;
    ghost var k: nat := 0;
    var i: bv32 := 0;
    VisitStart(index, bitsInMask, attackMask);
    while i < bitsInMask
      invariant Visited(index, bitsInMask, attackMask, n, k, i, mask, occupancy)
      decreases n - k
    {
      VisitMore(index, bitsInMask, attackMask, n, k, i, mask, occupancy);
      ghost var (occ0, mask0) := (occupancy, mask);
      var square;
      square, mask := PopLsb(mask);
      if IndexHas(index, i) {
        occupancy := SetBit(occupancy, square);
      }
      VisitStep(index, bitsInMask, attackMask, n, k, i, mask0, occ0, square, mask, occupancy);
      i := i + 1;
      k := k + 1;
    }
    VisitMore(index, bitsInMask, attackMask, n, k, i, mask, occupancy);
  }

  /** The occupancy for index k holds the j-th lowest relevant square exactly when bit j of k is set (j < n). */
  lemma SetOccupancyMembers(index: bv32, n: nat, mask: bv64, t: Square)
    ensures t in Picked(index, 0, n, Squares(mask)) <==>
      t in Squares(mask) && Lower(Squares(mask), t) < n && IndexBit(index, Lower(Squares(mask), t))
  {
    PickedMembers(index, 0, n, Squares(mask), t);
  }

  /** Every picked square belongs to the mask. */
  lemma PickedSubset(index: bv32, n: nat, mask: bv64)
    ensures Picked(index, 0, n, Squares(mask)) <= Squares(mask)
  {
    forall t | t in Picked(index, 0, n, Squares(mask)) ensures t in Squares(mask) {
      PickedMembers(index, 0, n, Squares(mask), t);
    }
  }
}
