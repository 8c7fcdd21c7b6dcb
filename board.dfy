/**
 * The position: twelve piece bitboards (white pawn .. white king, then black
 * pawn .. black king), the three occupancy boards derived from them (white,
 * black, both), the side to move, the en-passant square, the castling
 * rights, the history stack that make/unmake use, and the Zobrist hash with
 * its key tables.
 */
module Board {
  import opened Wrappers
  import opened Bits
  import Colors
  import opened Pieces
  import opened Castling
  import opened Moves
  import opened Attacks

  // ---------------------------------------------------------------------
  // Occupancies
  // ---------------------------------------------------------------------

  /** Some board among b[lo..hi] holds square t. */
  predicate HeldBy(b: seq<bv64>, lo: nat, hi: nat, t: Square)
    requires lo <= hi <= |b|
  {
    exists i | lo <= i < hi :: Bit(b[i], t)
  }

  /** The squares held by the boards b[lo..hi]. */
  ghost function Held(b: seq<bv64>, lo: nat, hi: nat): set<Square>
    requires lo <= hi <= |b|
    decreases hi - lo
  {
    if lo == hi then {} else Squares(b[lo]) + Held(b, lo + 1, hi)
  }

  /** A square is held by the range iff some board of the range has its bit. */
  lemma {:induction false} HeldMember(b: seq<bv64>, lo: nat, hi: nat, t: Square)
    requires lo <= hi <= |b|
    ensures t in Held(b, lo, hi) <==> HeldBy(b, lo, hi, t)
    decreases hi - lo
  {
    if lo < hi {
      HeldMember(b, lo + 1, hi, t);
      InSquares(b[lo], t);
      if HeldBy(b, lo, hi, t) && !Bit(b[lo], t) {
        var i :| lo <= i < hi && Bit(b[i], t);
        assert HeldBy(b, lo + 1, hi, t);
      }
    }
  }

  lemma {:induction false} HeldSplit(b: seq<bv64>, lo: nat, mid: nat, hi: nat)
    requires lo <= mid <= hi <= |b|
    ensures Held(b, lo, hi) == Held(b, lo, mid) + Held(b, mid, hi)
    decreases mid - lo
  {
    if lo < mid {
      HeldSplit(b, lo + 1, mid, hi);
    }
  }

  /** The union of the boards b[lo..hi]. */
  function OrRange(b: seq<bv64>, lo: nat, hi: nat): bv64
    requires lo <= hi <= |b|
    decreases hi - lo
  {
    if lo == hi then 0 else b[lo] | OrRange(b, lo + 1, hi)
  }

  lemma {:induction false} OrRangeHeld(b: seq<bv64>, lo: nat, hi: nat)
    requires lo <= hi <= |b|
    ensures Squares(OrRange(b, lo, hi)) == Held(b, lo, hi)
    decreases hi - lo
  {
    if lo == hi {
      SquaresZero();
    } else {
      OrRangeHeld(b, lo + 1, hi);
      SquaresOr(b[lo], OrRange(b, lo + 1, hi));
    }
  }

  /** The union of empty boards is empty. */
  lemma {:induction false} OrRangeEmpty(b: seq<bv64>, lo: nat, hi: nat)
    requires lo <= hi <= |b| && forall i | lo <= i < hi :: b[i] == 0
    ensures OrRange(b, lo, hi) == 0
    decreases hi - lo
  {
    if lo < hi {
      OrRangeEmpty(b, lo + 1, hi);
    }
  }

  /**
   * The occupancy boards `update_occupancies` derives: the or of the six
   * white boards, the or of the six black boards, and the or of all twelve
   * (the engine ors the white and black results, the same word).
   */
  function OccupanciesOf(b: seq<bv64>): (occ: seq<bv64>)
    requires |b| == 12
    ensures |occ| == 3
  {
    [OrRange(b, 0, 6), OrRange(b, 6, 12), OrRange(b, 0, 12)]
  }

  /**
   * The white occupancy holds the squares of the six white boards, the black
   * one those of the six black boards, and the third those of all twelve,
   * which is the union of the first two.
   */
  lemma OccupanciesHeld(b: seq<bv64>)
    requires |b| == 12
    ensures Squares(OccupanciesOf(b)[0]) == Held(b, 0, 6)
    ensures Squares(OccupanciesOf(b)[1]) == Held(b, 6, 12)
    ensures Squares(OccupanciesOf(b)[2]) == Held(b, 0, 12) == Held(b, 0, 6) + Held(b, 6, 12)
  {
    OrRangeHeld(b, 0, 6);
    OrRangeHeld(b, 6, 12);
    OrRangeHeld(b, 0, 12);
    HeldSplit(b, 0, 6, 12);
  }

  // ---------------------------------------------------------------------
  // Piece lookup
  // ---------------------------------------------------------------------

  /** The first board among b[lo..hi] holding square s, if there is one. */
  function FirstHolder(b: seq<bv64>, lo: nat, hi: nat, s: Square): (r: Option<nat>)
    requires lo <= hi <= |b|
    ensures r.Some? ==> lo <= r.value < hi && Bit(b[r.value], s)
    ensures r.Some? ==> forall j | lo <= j < r.value :: !Bit(b[j], s)
    ensures r.None? <==> s !in Held(b, lo, hi)
    decreases hi - lo
  {
    if lo == hi then None
    else
      InSquares(b[lo], s);
      if Bit(b[lo], s) then Some(lo) else FirstHolder(b, lo + 1, hi, s)
  }

  /**
   * The piece `get_piece_at_square` reports: when the white occupancy has
   * the square, the first white board holding it, otherwise the first black
   * board holding it; Empty when that search finds nothing.
   */
  function PieceOn(b: seq<bv64>, occ: seq<bv64>, s: Square): (p: Piece)
    requires |b| == 12 && |occ| == 3
    ensures p != Empty ==> Bit(b[Index(p)], s)
    ensures p != Empty && Bit(occ[0], s) ==> IsWhite(p)
    ensures p != Empty && !Bit(occ[0], s) ==> IsBlack(p)
  {
    var r := if Bit(occ[0], s) then FirstHolder(b, 0, 6, s) else FirstHolder(b, 6, 12, s);
    if r.Some? then PieceAt(r.value) else Empty
  }

  /** No square is held by two boards. */
  ghost predicate Disjoint(b: seq<bv64>)
    requires |b| == 12
  {
    forall i, j, t: Square | 0 <= i < j < 12 :: !(Bit(b[i], t) && Bit(b[j], t))
  }

  /** Occupancy boards that agree with the piece boards, however they were computed. */
  ghost predicate Consistent(b: seq<bv64>, occ: seq<bv64>)
    requires |b| == 12 && |occ| == 3
  {
    Squares(occ[0]) == Held(b, 0, 6) && Squares(occ[1]) == Held(b, 6, 12) && Squares(occ[2]) == Held(b, 0, 12)
  }

  /** Twelve empty boards (a new position's) have empty occupancies. */
  lemma OccupanciesEmpty(b: seq<bv64>)
    requires |b| == 12 && forall i | 0 <= i < 12 :: b[i] == 0
    ensures OccupanciesOf(b) == [0, 0, 0]
  {
    OrRangeEmpty(b, 0, 6);
    OrRangeEmpty(b, 6, 12);
    OrRangeEmpty(b, 0, 12);
  }

  lemma OccupanciesConsistent(b: seq<bv64>)
    requires |b| == 12
    ensures Consistent(b, OccupanciesOf(b))
  {
    OccupanciesHeld(b);
  }

  /** With consistent occupancies the lookup finds a piece exactly on the occupied squares. */
  lemma PieceOnOccupied(b: seq<bv64>, occ: seq<bv64>, s: Square)
    requires |b| == 12 && |occ| == 3 && Consistent(b, occ)
    ensures PieceOn(b, occ, s) == Empty <==> s !in Held(b, 0, 12)
  {
    InSquares(occ[0], s);
    HeldSplit(b, 0, 6, 12);
  }

  /** With consistent occupancies and disjoint boards the lookup finds the piece whose board holds the square. */
  lemma PieceOnDisjoint(b: seq<bv64>, occ: seq<bv64>, s: Square, i: nat)
    requires |b| == 12 && |occ| == 3 && Consistent(b, occ) && Disjoint(b) && i < 12 && Bit(b[i], s)
    ensures PieceOn(b, occ, s) == PieceAt(i)
  {
    PieceOnOccupied(b, occ, s);
    HeldMember(b, 0, 12, s);
    var k := Index(PieceOn(b, occ, s));
    if k != i {
      assert false;
    }
  }

  // ---------------------------------------------------------------------
  // Attacks on a square
  // ---------------------------------------------------------------------

  /** The index of the first board of colour c: 0 for White, 6 for Black. */
  function SideOffset(c: Colors.Color): (o: nat)
    ensures o == 0 || o == 6
    ensures o == 0 <==> c == Colors.White
  {
    Colors.Index(c) * 6
  }

  /**
   * The squares holding a piece of colour c that attacks square s, sliders
   * being blocked by `occupancy`.  A pawn of colour c on t attacks s exactly
   * when t is among the squares a pawn of the other colour on s attacks.
   */
  ghost function Attackers(b: seq<bv64>, c: Colors.Color, s: Square, occupancy: bv64): set<Square>
    requires |b| == 12
  {
    var o := SideOffset(c);
    AttackSet(PawnTargets(s, Colors.Not(c)), KnightTargets(s), BishopAttacks(s, occupancy),
              RookAttacks(s, occupancy), KingTargets(s),
              b[o], b[o + 1], b[o + 2], b[o + 3], b[o + 4], b[o + 5])
  }

  /**
   * The squares of the given pawns, knights, bishops, rooks, queens and
   * kings that lie on the matching target sets, queens counting with both
   * the bishops and the rooks.
   */
  ghost function AttackSet(tp: set<Square>, tn: set<Square>, tb: set<Square>, tr: set<Square>, tk: set<Square>,
                           pawns: bv64, knights: bv64, bishops: bv64, rooks: bv64, queens: bv64, kings: bv64): set<Square>
  {
    tp * Squares(pawns) + tn * Squares(knights) + tb * (Squares(bishops) + Squares(queens))
    + tr * (Squares(rooks) + Squares(queens)) + tk * Squares(kings)
  }

  lemma AttackersUnfold(b: seq<bv64>, c: Colors.Color, s: Square, occupancy: bv64)
    requires |b| == 12
    ensures var o := SideOffset(c);
            Attacked(b, c, s, occupancy)
            <==> AttackSet(PawnTargets(s, Colors.Not(c)), KnightTargets(s), BishopAttacks(s, occupancy),
                           RookAttacks(s, occupancy), KingTargets(s), b[o], b[o + 1], b[o + 2], b[o + 3], b[o + 4], b[o + 5]) != {}
  {
  }

  /** Attackers unfolded for a colour given as a parameter. */
  lemma AttackersOfColor(b: seq<bv64>, c: Colors.Color, s: Square, occupancy: bv64)
    requires |b| == 12
    ensures var o := SideOffset(c);
            Attackers(b, c, s, occupancy)
            == AttackSet(PawnTargets(s, Colors.Not(c)), KnightTargets(s), BishopAttacks(s, occupancy),
                         RookAttacks(s, occupancy), KingTargets(s), b[o], b[o + 1], b[o + 2], b[o + 3], b[o + 4], b[o + 5])
  {
  }

  /**
   * Membership in an attack set, board by board, given for each target set
   * whether it holds t.
   */
  lemma AttackSetMember(tp: set<Square>, tn: set<Square>, tb: set<Square>, tr: set<Square>, tk: set<Square>,
                        pawns: bv64, knights: bv64, bishops: bv64, rooks: bv64, queens: bv64, kings: bv64, t: Square,
                        inP: bool, inN: bool, inB: bool, inR: bool, inK: bool)
    requires (t in tp) == inP && (t in tn) == inN && (t in tb) == inB && (t in tr) == inR && (t in tk) == inK
    ensures t in AttackSet(tp, tn, tb, tr, tk, pawns, knights, bishops, rooks, queens, kings)
            <==> || (t in Squares(pawns) && inP)
                 || (t in Squares(knights) && inN)
                 || (t in Squares(bishops) && inB)
                 || (t in Squares(rooks) && inR)
                 || (t in Squares(queens) && (inB || inR))
                 || (t in Squares(kings) && inK)
  {
  }

  /** Every piece's attacks are symmetric between s and t (a pawn's with the colours exchanged). */
  lemma AttacksSymmetric(c: Colors.Color, s: Square, occupancy: bv64, t: Square)
    ensures (t in PawnTargets(s, Colors.Not(c))) == (s in PawnTargets(t, c))
    ensures (t in KnightTargets(s)) == (s in KnightTargets(t))
    ensures (t in BishopAttacks(s, occupancy)) == (s in BishopAttacks(t, occupancy))
    ensures (t in RookAttacks(s, occupancy)) == (s in RookAttacks(t, occupancy))
    ensures (t in KingTargets(s)) == (s in KingTargets(t))
  {
    PawnSymmetric(s, t, c);
    KnightSymmetric(s, t);
    BishopSymmetric(s, t, occupancy);
    RookSymmetric(s, t, occupancy);
    KingSymmetric(s, t);
  }

  /**
   * The reverse lookup on six boards: t is in the attack set of s exactly
   * when one of the boards holds t and that piece on t attacks s.
   */
  lemma ReverseLookup(pawns: bv64, knights: bv64, bishops: bv64, rooks: bv64, queens: bv64, kings: bv64,
                      c: Colors.Color, s: Square, occupancy: bv64, t: Square)
    ensures t in AttackSet(PawnTargets(s, Colors.Not(c)), KnightTargets(s), BishopAttacks(s, occupancy),
                           RookAttacks(s, occupancy), KingTargets(s), pawns, knights, bishops, rooks, queens, kings)
            <==> || (t in Squares(pawns) && s in PawnTargets(t, c))
                 || (t in Squares(knights) && s in KnightTargets(t))
                 || (t in Squares(bishops) && s in BishopAttacks(t, occupancy))
                 || (t in Squares(rooks) && s in RookAttacks(t, occupancy))
                 || (t in Squares(queens) && (s in BishopAttacks(t, occupancy) || s in RookAttacks(t, occupancy)))
                 || (t in Squares(kings) && s in KingTargets(t))
  {
    AttacksSymmetric(c, s, occupancy, t);
    AttackSetMember(PawnTargets(s, Colors.Not(c)), KnightTargets(s), BishopAttacks(s, occupancy),
                    RookAttacks(s, occupancy), KingTargets(s), pawns, knights, bishops, rooks, queens, kings, t,
                    s in PawnTargets(t, c), s in KnightTargets(t), s in BishopAttacks(t, occupancy),
                    s in RookAttacks(t, occupancy), s in KingTargets(t));
  }

  /**
   * The reverse lookup finds exactly the attackers: t is among the attackers
   * of s exactly when a piece of colour c on t attacks s.
   */
  lemma AttackersAt(b: seq<bv64>, c: Colors.Color, s: Square, occupancy: bv64, t: Square)
    requires |b| == 12
    ensures var o := SideOffset(c);
            t in Attackers(b, c, s, occupancy)
            <==> || (t in Squares(b[o]) && s in PawnTargets(t, c))
                 || (t in Squares(b[o + 1]) && s in KnightTargets(t))
                 || (t in Squares(b[o + 2]) && s in BishopAttacks(t, occupancy))
                 || (t in Squares(b[o + 3]) && s in RookAttacks(t, occupancy))
                 || (t in Squares(b[o + 4]) && (s in BishopAttacks(t, occupancy) || s in RookAttacks(t, occupancy)))
                 || (t in Squares(b[o + 5]) && s in KingTargets(t))
  {
    var o := SideOffset(c);
    AttackersOfColor(b, c, s, occupancy);
    ReverseLookup(b[o], b[o + 1], b[o + 2], b[o + 3], b[o + 4], b[o + 5], c, s, occupancy, t);
  }

  /**
   * Square s is attacked by colour c exactly when some square t holds a
   * piece of colour c that attacks s from t: a pawn by its forward
   * diagonals, a knight or king by its leaps, a bishop, rook or queen along
   * its rays up to the first square of `occupancy`.
   */
  lemma AttackedIff(b: seq<bv64>, c: Colors.Color, s: Square, occupancy: bv64)
    requires |b| == 12
    ensures var o := SideOffset(c);
      Attacked(b, c, s, occupancy) <==> exists t: Square ::
            || (t in Squares(b[o]) && s in PawnTargets(t, c))
            || (t in Squares(b[o + 1]) && s in KnightTargets(t))
            || (t in Squares(b[o + 2]) && s in BishopAttacks(t, occupancy))
            || (t in Squares(b[o + 3]) && s in RookAttacks(t, occupancy))
            || (t in Squares(b[o + 4]) && (s in BishopAttacks(t, occupancy) || s in RookAttacks(t, occupancy)))
            || (t in Squares(b[o + 5]) && s in KingTargets(t))
  {
    if Attacked(b, c, s, occupancy) {
      AttackedHasAttacker(b, c, s, occupancy);
    } else {
      NoAttackerFound(b, c, s, occupancy);
    }
  }

  lemma AttackedHasAttacker(b: seq<bv64>, c: Colors.Color, s: Square, occupancy: bv64)
    requires |b| == 12 && Attacked(b, c, s, occupancy)
    ensures var o := SideOffset(c);
      exists t: Square ::
            || (t in Squares(b[o]) && s in PawnTargets(t, c))
            || (t in Squares(b[o + 1]) && s in KnightTargets(t))
            || (t in Squares(b[o + 2]) && s in BishopAttacks(t, occupancy))
            || (t in Squares(b[o + 3]) && s in RookAttacks(t, occupancy))
            || (t in Squares(b[o + 4]) && (s in BishopAttacks(t, occupancy) || s in RookAttacks(t, occupancy)))
            || (t in Squares(b[o + 5]) && s in KingTargets(t))
  {
    var attackers := Attackers(b, c, s, occupancy);
    var t := Least(attackers);
    AttackersAt(b, c, s, occupancy, t);
  }

  lemma NoAttackerFound(b: seq<bv64>, c: Colors.Color, s: Square, occupancy: bv64)
    requires |b| == 12 && !Attacked(b, c, s, occupancy)
    ensures var o := SideOffset(c);
      forall t: Square :: !(
            || (t in Squares(b[o]) && s in PawnTargets(t, c))
            || (t in Squares(b[o + 1]) && s in KnightTargets(t))
            || (t in Squares(b[o + 2]) && s in BishopAttacks(t, occupancy))
            || (t in Squares(b[o + 3]) && s in RookAttacks(t, occupancy))
            || (t in Squares(b[o + 4]) && (s in BishopAttacks(t, occupancy) || s in RookAttacks(t, occupancy)))
            || (t in Squares(b[o + 5]) && s in KingTargets(t)))
  {
    forall t: Square
      ensures var o := SideOffset(c);
              !(
                || (t in Squares(b[o]) && s in PawnTargets(t, c))
                || (t in Squares(b[o + 1]) && s in KnightTargets(t))
                || (t in Squares(b[o + 2]) && s in BishopAttacks(t, occupancy))
                || (t in Squares(b[o + 3]) && s in RookAttacks(t, occupancy))
                || (t in Squares(b[o + 4]) && (s in BishopAttacks(t, occupancy) || s in RookAttacks(t, occupancy)))
                || (t in Squares(b[o + 5]) && s in KingTargets(t)))
    {
      AttackersAt(b, c, s, occupancy, t);
    }
  }

  /** A side whose one king stands on s is in check exactly when s is attacked. */
  lemma KingOn(b: seq<bv64>, c: Colors.Color, occupancy: bv64, s: Square)
    requires |b| == 12 && Squares(b[SideOffset(c) + 5]) == {s}
    ensures InCheck(b, c, occupancy) <==> Attacked(b, Colors.Not(c), s, occupancy)
  {
    NonZeroIff(b[SideOffset(c) + 5]);
  }

  /** A rook of colour c on t attacks s when t lies on the rook lines from s. */
  lemma RookAttacker(b: seq<bv64>, c: Colors.Color, s: Square, occupancy: bv64, t: Square)
    requires |b| == 12 && t in RookAttacks(s, occupancy) && t in Squares(b[SideOffset(c) + 3])
    ensures Attacked(b, c, s, occupancy)
  {
    AttackersOfColor(b, c, s, occupancy);
  }

  /** Some piece of colour c attacks square s. */
  ghost predicate Attacked(b: seq<bv64>, c: Colors.Color, s: Square, occupancy: bv64)
    requires |b| == 12
  {
    Attackers(b, c, s, occupancy) != {}
  }

  /** Colour c has no king, or its (lowest) king square is attacked by the other colour. */
  ghost predicate InCheck(b: seq<bv64>, c: Colors.Color, occupancy: bv64)
    requires |b| == 12
  {
    var k := b[SideOffset(c) + 5];
    k == 0 || (NonZeroIff(k); Attacked(b, Colors.Not(c), Least(Squares(k)), occupancy))
  }

  lemma NoKingInCheck(b: seq<bv64>, c: Colors.Color, occupancy: bv64)
    requires |b| == 12 && b[SideOffset(c) + 5] == 0
    ensures InCheck(b, c, occupancy)
  {
  }

  lemma KingSquareCheck(b: seq<bv64>, c: Colors.Color, occupancy: bv64, kings: bv64, square: Square)
    requires |b| == 12 && kings == b[SideOffset(c) + 5] && GetLsb(kings) < 64
    requires square == GetLsb(kings) as Square
    ensures InCheck(b, c, occupancy) <==> Attacked(b, Colors.Not(c), square, occupancy)
  {
    LsbOrNone(kings);
  }

  lemma NonZeroIff(x: bv64)
    ensures x != 0 <==> Squares(x) != {}
  {
    if x != 0 { NonZeroSquares(x); } else { SquaresZero(); }
  }

  lemma OrStep(a: bv64, x: bv64, r: bv64, A: set<Square>)
    requires r == a | x && Squares(a) == A
    ensures Squares(r) == A + Squares(x)
  {
    SquaresOr(a, x);
  }

  lemma OrJoin(a: bv64, x: bv64, r: bv64, A: set<Square>, X: set<Square>)
    requires r == a | x && Squares(a) == A && Squares(x) == X
    ensures Squares(r) == A + X
  {
    SquaresOr(a, x);
  }

  lemma AndStep(mask: bv64, board: bv64, r: bv64, targets: set<Square>, A: set<Square>)
    requires r == mask & board && Squares(mask) == targets && Squares(board) == A
    ensures Squares(r) == targets * A
  {
    SquaresAnd(mask, board);
  }

  /**
   * The five meets of `is_square_attacked_w_occupancy` (each attack mask
   * from the square with the attacker's boards of that kind) or together to
   * a non-zero word iff some attacker stands on a square the masks reach.
   */
  lemma AttackTest(pawnMask: bv64, knightMask: bv64, bishopMask: bv64, rookMask: bv64, kingMask: bv64,
                   pawns: bv64, knights: bv64, bishops: bv64, rooks: bv64, queens: bv64, kings: bv64,
                   bq: bv64, rq: bv64, p: bv64, n: bv64, b: bv64, r: bv64, k: bv64,
                   any1: bv64, any2: bv64, any3: bv64, any: bv64,
                   tp: set<Square>, tn: set<Square>, tb: set<Square>, tr: set<Square>, tk: set<Square>)
    requires Squares(pawnMask) == tp && Squares(knightMask) == tn && Squares(bishopMask) == tb
    requires Squares(rookMask) == tr && Squares(kingMask) == tk
    requires bq == bishops | queens && rq == rooks | queens
    requires p == pawnMask & pawns && n == knightMask & knights && b == bishopMask & bq
    requires r == rookMask & rq && k == kingMask & kings
    requires any1 == p | n && any2 == any1 | b && any3 == any2 | r && any == any3 | k
    ensures any != 0 <==> AttackSet(tp, tn, tb, tr, tk, pawns, knights, bishops, rooks, queens, kings) != {}
  {
    var sp, sn, sk := tp * Squares(pawns), tn * Squares(knights), tk * Squares(kings);
    var sb := tb * (Squares(bishops) + Squares(queens));
    var sr := tr * (Squares(rooks) + Squares(queens));
    OrStep(bishops, queens, bq, Squares(bishops));
    OrStep(rooks, queens, rq, Squares(rooks));
    AndStep(pawnMask, pawns, p, tp, Squares(pawns));
    AndStep(knightMask, knights, n, tn, Squares(knights));
    AndStep(bishopMask, bq, b, tb, Squares(bishops) + Squares(queens));
    AndStep(rookMask, rq, r, tr, Squares(rooks) + Squares(queens));
    AndStep(kingMask, kings, k, tk, Squares(kings));
    OrStep(p, n, any1, sp);
    OrStep(any1, b, any2, sp + sn);
    OrStep(any2, r, any3, sp + sn + sb);
    OrStep(any3, k, any, sp + sn + sb + sr);
    NonZeroIff(any);
  }

  // ---------------------------------------------------------------------
  // Game phase and the tapered piece value
  // ---------------------------------------------------------------------

  const OPENING_GAME_PHASE_SCORE: int := 6192
  const ENDGAME_PHASE_SCORE: int := 518

  /** Material values by piece index; the opening and ending tables are equal. */
  const OPENING_PIECE_SCORES: seq<int> := [82, 337, 365, 477, 1025, 12000, 82, 337, 365, 477, 1025, 12000]
  const ENDING_PIECE_SCORES: seq<int> := [82, 337, 365, 477, 1025, 12000, 82, 337, 365, 477, 1025, 12000]

  /**
   * `get_game_phase_score`: bishops count 365, knights 337, rooks 477 and
   * queens 1025, of both colours.
   */
  function PhaseScore(b: seq<bv64>): int
    requires |b| == 12
  {
    PhaseOf(b[8], b[2], b[7], b[1], b[9], b[3], b[4], b[10])
  }

  /** The phase score of the bishop, knight, rook and queen boards, each pair or-ed together. */
  function PhaseOf(b1: bv64, b2: bv64, n1: bv64, n2: bv64, r1: bv64, r2: bv64, q1: bv64, q2: bv64): int {
    PopCount(b1 | b2) * 365 + PopCount(n1 | n2) * 337 + PopCount(r1 | r2) * 477 + PopCount(q1 | q2) * 1025
  }

  lemma PairCount(x: bv64, y: bv64)
    ensures PopCount(x | y) == |Squares(x) + Squares(y)|
  {
    SquaresOr(x, y);
    PopCountIsSize(x | y);
  }

  /** The phase score weighs the number of squares holding bishops, knights, rooks and queens. */
  lemma PhaseCounts(b1: bv64, b2: bv64, n1: bv64, n2: bv64, r1: bv64, r2: bv64, q1: bv64, q2: bv64)
    ensures PhaseOf(b1, b2, n1, n2, r1, r2, q1, q2)
         == |Squares(b1) + Squares(b2)| * 365 + |Squares(n1) + Squares(n2)| * 337
          + |Squares(r1) + Squares(r2)| * 477 + |Squares(q1) + Squares(q2)| * 1025
  {
    PairCount(b1, b2);
    PairCount(n1, n2);
    PairCount(r1, r2);
    PairCount(q1, q2);
  }

  /** Rust's `/` on i32: the quotient truncated toward zero. */
  function TruncDiv(a: int, d: int): (q: int)
    requires d > 0
    ensures a >= 0 ==> q == a / d
    ensures a < 0 ==> q == -((-a) / d)
  {
    if a >= 0 then a / d else -((-a) / d)
  }

  /** A truncated quotient of a value in [lo*d, hi*d] lies in [lo, hi]. */
  lemma TruncDivBetween(a: int, d: int, lo: int, hi: int)
    requires d > 0 && lo * d <= a <= hi * d
    ensures lo <= TruncDiv(a, d) <= hi
  {
    if a >= 0 {
      DivBounds(a, d, lo, hi);
    } else {
      DivBounds(-a, d, -hi, -lo);
    }
  }

  lemma DivBounds(a: int, d: int, lo: int, hi: int)
    requires d > 0 && a >= 0 && lo * d <= a <= hi * d
    ensures lo <= a / d <= hi
  {
    var q := a / d;
    DivMod(a, d);
    if q < lo {
      MulMono(q + 1, lo, d);
      MulSucc(q, d);
    }
    if q > hi {
      MulMono(hi + 1, q, d);
      MulSucc(hi, d);
    }
  }

  lemma DivMod(a: int, d: int)
    requires d > 0
    ensures a == (a / d) * d + a % d && 0 <= a % d < d
  {
  }

  lemma MulSucc(x: int, d: int)
    ensures (x + 1) * d == x * d + d
  {
  }

  lemma MulMono(x: int, y: int, d: int)
    requires x <= y && d >= 0
    ensures x * d <= y * d
  {
  }

  /** A weighted sum x*w + y*(k-w), 0 <= w <= k, lies between k*min and k*max. */
  lemma BlendBetween(x: int, y: int, w: int, k: int)
    requires 0 <= w <= k
    ensures (if x < y then x else y) * k <= x * w + y * (k - w) <= (if x < y then y else x) * k
  {
    var lo := if x < y then x else y;
    var hi := if x < y then y else x;
    MulMono(lo, x, w);
    MulMono(x, hi, w);
    MulMono(lo, y, k - w);
    MulMono(y, hi, k - w);
    assert lo * k == lo * w + lo * (k - w);
    assert hi * k == hi * w + hi * (k - w);
  }

  /** Piece-square tables: twelve rows of 64 values. */
  ghost predicate TableShape(t: seq<seq<int>>) {
    |t| == 12 && forall i | 0 <= i < 12 :: |t[i]| == 64
  }

  /** The square a piece's table is read at: black pieces read it mirrored (MIRROR_SCORE[s] == s ^ 56). */
  function TableSquare(piece: nat, s: Square): (i: nat)
    ensures i < 64
  {
    if piece >= 6 then (s ^ 56) as int else s as int
  }

  /** The opening-phase interpolation of a value pair. */
  function Interpolate(opening: int, ending: int, phase: int): int {
    TruncDiv(opening * phase + ending * (OPENING_GAME_PHASE_SCORE - phase), OPENING_GAME_PHASE_SCORE)
  }

  /**
   * `_get_piece_value_bl`: opening value (material plus table entry) above
   * phase 6192, ending value below phase 518, and in between the two
   * truncated interpolations of the material and of the table entry.
   */
  function PieceValue(piece: nat, s: Square, phase: int, openPst: seq<seq<int>>, endPst: seq<seq<int>>): (v: int)
    requires piece < 12 && TableShape(openPst) && TableShape(endPst)
    ensures phase > OPENING_GAME_PHASE_SCORE
      ==> v == OPENING_PIECE_SCORES[piece] + openPst[piece][TableSquare(piece, s)]
    ensures phase < ENDGAME_PHASE_SCORE
      ==> v == ENDING_PIECE_SCORES[piece] + endPst[piece][TableSquare(piece, s)]
  {
    var sq := TableSquare(piece, s);
    if phase > OPENING_GAME_PHASE_SCORE then
      OPENING_PIECE_SCORES[piece] + openPst[piece][sq]
    else if phase < ENDGAME_PHASE_SCORE then
      ENDING_PIECE_SCORES[piece] + endPst[piece][sq]
    else
      Interpolate(OPENING_PIECE_SCORES[piece], ENDING_PIECE_SCORES[piece], phase)
        + Interpolate(openPst[piece][sq], endPst[piece][sq], phase)
  }

  /**
   * In the middle game the value lies between the ending and the opening
   * value of the table entry (the material parts being equal), and at phase
   * 6192 it is exactly the opening value, so the taper meets the opening
   * branch without a jump.
   */
  lemma PieceValueTapered(piece: nat, s: Square, phase: int, openPst: seq<seq<int>>, endPst: seq<seq<int>>)
    requires piece < 12 && TableShape(openPst) && TableShape(endPst)
    requires ENDGAME_PHASE_SCORE <= phase <= OPENING_GAME_PHASE_SCORE
    ensures var o := openPst[piece][TableSquare(piece, s)];
            var e := endPst[piece][TableSquare(piece, s)];
            var v := PieceValue(piece, s, phase, openPst, endPst);
            OPENING_PIECE_SCORES[piece] + (if o < e then o else e) <= v
            && v <= OPENING_PIECE_SCORES[piece] + (if o < e then e else o)
    ensures phase == OPENING_GAME_PHASE_SCORE
      ==> PieceValue(piece, s, phase, openPst, endPst)
          == OPENING_PIECE_SCORES[piece] + openPst[piece][TableSquare(piece, s)]
  {
    var k := OPENING_GAME_PHASE_SCORE;
    var m := OPENING_PIECE_SCORES[piece];
    assert ENDING_PIECE_SCORES[piece] == m;
    var o := openPst[piece][TableSquare(piece, s)];
    var e := endPst[piece][TableSquare(piece, s)];
    BlendBetween(m, m, phase, k);
    TruncDivBetween(m * phase + m * (k - phase), k, m, m);
    BlendBetween(o, e, phase, k);
    TruncDivBetween(o * phase + e * (k - phase), k, if o < e then o else e, if o < e then e else o);
    if phase == k {
      assert o * phase + e * (k - phase) == o * k;
      TruncDivBetween(o * k, k, o, o);
    }
  }

  /**
   * Colour symmetry: when each black row of the tables equals the white
   * row, a black piece on the mirrored square is worth what the white piece
   * is worth.
   */
  lemma PieceValueMirrored(piece: nat, s: Square, phase: int, openPst: seq<seq<int>>, endPst: seq<seq<int>>)
    requires piece < 6 && TableShape(openPst) && TableShape(endPst)
    requires openPst[piece + 6] == openPst[piece] && endPst[piece + 6] == endPst[piece]
    ensures PieceValue(piece + 6, s ^ 56, phase, openPst, endPst) == PieceValue(piece, s, phase, openPst, endPst)
  {
    assert (s ^ 56) ^ 56 == s;
    assert TableSquare(piece + 6, s ^ 56) == TableSquare(piece, s);
    assert OPENING_PIECE_SCORES[piece + 6] == OPENING_PIECE_SCORES[piece];
    assert ENDING_PIECE_SCORES[piece + 6] == ENDING_PIECE_SCORES[piece];
  }

  // ---------------------------------------------------------------------
  // History entries and the position
  // ---------------------------------------------------------------------

  /** A saved position: what `make_move` stores and `unmake_move` restores. */
  datatype HistoryEntry = HistoryEntry(
    bitboards: seq<bv64>,
    turn: Colors.Color,
    enpassant: Option<Square>,
    castling: CastlingRights,
    material: seq<int>,
    halfmoveClock: nat,
    fullmoveNumber: nat,
    occupancies: seq<bv64>,
    hash: bv64)

  /** A well-shaped entry whose occupancies agree with its boards. */
  ghost predicate EntryValid(e: HistoryEntry) {
    |e.bitboards| == 12 && e.occupancies == OccupanciesOf(e.bitboards)
    && |e.material| == 2 && e.castling.rights <= 15
  }

  /** Every saved entry is well formed. */
  ghost predicate StackValid(stack: seq<HistoryEntry>) {
    forall i {:trigger EntryValid(stack[i])} | 0 <= i < |stack| :: EntryValid(stack[i])
  }

  /** Saving a well-formed entry in a well-formed stack keeps it well formed. */
  lemma StackValidSave(stack: seq<HistoryEntry>, i: nat, e: HistoryEntry)
    requires StackValid(stack) && i < |stack| && EntryValid(e)
    ensures StackValid(stack[i := e])
  {
  }

  /** `HistoryEntry::default`: the empty board, White to move, all castling rights, move 1. */
  function DefaultEntry(): (e: HistoryEntry)
    ensures EntryValid(e) && e.fullmoveNumber == 1
    ensures forall i | 0 <= i < 12 :: e.bitboards[i] == 0
  {
    var zeros := seq(12, _ => 0);
    HistoryEntry(zeros, Colors.White, None, Castling.New(), [0, 0], 0, 1, [0, 0, 0], 0)
  }

  /** The Zobrist key tables have the engine's sizes. */
  ghost predicate KeysShape(pieceKeys: seq<seq<bv64>>, castlingKeys: seq<bv64>, enpassantKeys: seq<bv64>) {
    |pieceKeys| == 12 && (forall i | 0 <= i < 12 :: |pieceKeys[i]| == 64)
    && |castlingKeys| == 16 && |enpassantKeys| == 64
  }

  // ---------------------------------------------------------------------
  // Zobrist hashing
  // ---------------------------------------------------------------------

  /** Toggles one Zobrist key in or out of a hash (`hash ^= key`). */
  function Toggle(hash: bv64, key: bv64): bv64 {
    hash ^ key
  }

  /** `acc` with the keys of the squares in `S` xored in, lowest square first. */
  ghost function XorFrom(acc: bv64, keys: seq<bv64>, S: set<Square>): bv64
    requires |keys| == 64
    decreases |S|
  {
    if S == {} then acc else XorFrom(Toggle(acc, keys[Least(S)]), keys, S - {Least(S)})
  }

  /** The piece part of the hash: every piece's key on every square it occupies. */
  ghost function PiecesHash(b: seq<bv64>, pieceKeys: seq<seq<bv64>>, n: nat): bv64
    requires n <= |b| && n <= |pieceKeys| && forall i | 0 <= i < n :: |pieceKeys[i]| == 64
  {
    if n == 0 then 0 else XorFrom(PiecesHash(b, pieceKeys, n - 1), pieceKeys[n - 1], Squares(b[n - 1]))
  }

  /**
   * The hash of a position: its pieces, the en-passant square if any, the
   * castling rights, and the side key when Black is to move.
   */
  ghost function ZobristHash(b: seq<bv64>, enpassant: Option<Square>, castling: CastlingRights, turn: Colors.Color,
                             pieceKeys: seq<seq<bv64>>, castlingKeys: seq<bv64>, enpassantKeys: seq<bv64>, turnKey: bv64): bv64
    requires |b| == 12 && KeysShape(pieceKeys, castlingKeys, enpassantKeys) && castling.rights <= 15
  {
    var pieces := PiecesHash(b, pieceKeys, |b|);
    var withEnpassant := if enpassant.Some? then Toggle(pieces, enpassantKeys[enpassant.value]) else pieces;
    RightsIndex(castling);
    var withCastling := Toggle(withEnpassant, castlingKeys[RightsU8(castling)]);
    if turn == Colors.Black then Toggle(withCastling, turnKey) else withCastling
  }

  lemma XorFromLeast(acc: bv64, keys: seq<bv64>, S: set<Square>, least: Square)
    requires |keys| == 64 && S != {} && least == Least(S)
    ensures XorFrom(acc, keys, S) == XorFrom(Toggle(acc, keys[least]), keys, S - {least})
  {
  }

  lemma XorFromEmpty(acc: bv64, keys: seq<bv64>, S: set<Square>)
    requires |keys| == 64 && S == Squares(0)
    ensures XorFrom(acc, keys, S) == acc
  {
    SquaresZero();
  }
}
