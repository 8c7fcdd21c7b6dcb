/**
 * What `make_move` does to a position, stated on values: the boards after
 * the move, the castling rights and en-passant square it leaves, and the
 * xor mask it applies to the hash.  The `Position` class performs the same
 * steps in place and is proved to end in the state these functions give.
 */
module MoveEffects {
  import opened Wrappers
  import opened Bits
  import Colors
  import opened Pieces
  import opened Castling
  import opened Moves
  import opened Board

  // Squares named by make_move (a8 = 0, h1 = 63).
  const A8: Square := 0
  const C8: Square := 2
  const D8: Square := 3
  const F8: Square := 5
  const G8: Square := 6
  const H8: Square := 7
  const A1: Square := 56
  const C1: Square := 58
  const D1: Square := 59
  const F1: Square := 61
  const G1: Square := 62
  const H1: Square := 63

  /** The fields of a bit-packed move that make_move reads. */
  datatype MoveFields = MoveFields(from: Square, to: Square, piece: Piece, capture: Piece,
                                   promotion: Piece, castle: bool, enpassant: bool)

  /** Reading the fields of a well-formed move; the flags agree with the pieces. */
  function Fields(m: BitPackedMove): (f: MoveFields)
    requires WellFormed(m)
    ensures f.capture != Empty <==> IsCapture(m)
    ensures f.promotion != Empty <==> IsPromotion(m)
    ensures f.castle <==> IsCastle(m)
    ensures f.enpassant <==> IsEnpassant(m)
  {
    FlagsMatchPieces(m);
    FromReadExact(m);
    MoveFields(GetFrom(m), GetTo(m), GetPiece(m), GetCapture(m), GetPromotion(m), IsCastle(m), IsEnpassant(m))
  }

  // ---------------------------------------------------------------------
  // Boards
  // ---------------------------------------------------------------------

  /** Board i with square s set. */
  function Place(b: seq<bv64>, i: nat, s: Square): (r: seq<bv64>)
    requires i < |b|
    ensures |r| == |b|
  {
    b[i := SetBit(b[i], s)]
  }

  /** Board i with square s cleared. */
  function Lift(b: seq<bv64>, i: nat, s: Square): (r: seq<bv64>)
    requires i < |b|
    ensures |r| == |b|
  {
    b[i := ClearBit(b[i], s)]
  }

  /**
   * The first step of every move: the mover's board gains `to` and then
   * loses `from`, and a captured piece's board loses `to`.
   */
  function Moved(b: seq<bv64>, f: MoveFields): (r: seq<bv64>)
    requires |b| == 12 && f.piece != Empty
    ensures |r| == 12
  {
    var p := Index(f.piece);
    var moved := Lift(Place(b, p, f.to), p, f.from);
    if f.capture != Empty then Lift(moved, Index(f.capture), f.to) else moved
  }

  /** A pawn reaching `to` with a promotion is replaced there by the promoted piece. */
  function Promoted(b: seq<bv64>, f: MoveFields): (r: seq<bv64>)
    requires |b| == 12 && f.piece != Empty
    ensures |r| == 12
  {
    if f.promotion != Empty then Place(Lift(b, Index(f.piece), f.to), Index(f.promotion), f.to) else b
  }

  /**
   * The square of the pawn an en-passant capture removes: one rank behind
   * `to` from the mover's side (`to + 8` for White, `to - 8` for Black),
   * taken modulo 64 as the engine's shift does.
   */
  function EpVictim(to: Square, turn: Colors.Color): Square {
    if turn == Colors.White then to + 8 else to - 8
  }

  /**
   * The engine's lookup of the en-passant victim: it must find a piece
   * whenever the (stale) occupancy has the square, or the board index
   * would be out of range.
   */
  predicate VictimFound(b: seq<bv64>, occ: seq<bv64>, v: Square)
    requires |b| == 12 && |occ| == 3
  {
    Bit(occ[2], v) ==> PieceOn(b, occ, v) != Empty
  }

  /**
   * The en-passant capture: when the occupancy recorded before the move
   * has the victim square, the piece found there loses it.
   */
  function EpCaptured(b: seq<bv64>, occ: seq<bv64>, v: Square): (r: seq<bv64>)
    requires |b| == 12 && |occ| == 3 && VictimFound(b, occ, v)
    ensures |r| == 12
  {
    if Bit(occ[2], v) then Lift(b, Index(PieceOn(b, occ, v)), v) else b
  }

  /** The boards after the pawn part of a pawn move: promotion, then the en-passant capture. */
  function PawnBoards(b: seq<bv64>, occ: seq<bv64>, f: MoveFields, turn: Colors.Color): (r: seq<bv64>)
    requires |b| == 12 && |occ| == 3 && f.piece != Empty
    requires f.enpassant ==> VictimFound(Promoted(b, f), occ, EpVictim(f.to, turn))
    ensures |r| == 12
  {
    var promoted := Promoted(b, f);
    if f.enpassant then EpCaptured(promoted, occ, EpVictim(f.to, turn)) else promoted
  }

  /** Castling moves the rook of the corner next to the king's target square. */
  function CastleRook(b: seq<bv64>, to: Square): (r: seq<bv64>)
    requires |b| == 12
    ensures |r| == 12
  {
    if to == C1 then Place(Lift(b, 3, A1), 3, D1)
    else if to == G1 then Place(Lift(b, 3, H1), 3, F1)
    else if to == C8 then Place(Lift(b, 9, A8), 9, D8)
    else if to == G8 then Place(Lift(b, 9, H8), 9, F8)
    else b
  }

  /** The precondition the engine's board indexing imposes on a move. */
  predicate CanMake(b: seq<bv64>, occ: seq<bv64>, f: MoveFields, turn: Colors.Color)
    requires |b| == 12 && |occ| == 3
  {
    f.piece != Empty
    && (IsPawn(f.piece) && f.enpassant ==> VictimFound(Promoted(Moved(b, f), f), occ, EpVictim(f.to, turn)))
    && (IsPawn(f.piece) ==> EnpassantInRange(f.from, f.to))
  }

  /** The boards after a move that make_move keeps. */
  function BoardsAfter(b: seq<bv64>, occ: seq<bv64>, f: MoveFields, turn: Colors.Color): (r: seq<bv64>)
    requires |b| == 12 && |occ| == 3 && CanMake(b, occ, f, turn)
    ensures |r| == 12
  {
    var moved := Moved(b, f);
    if IsPawn(f.piece) then PawnBoards(moved, occ, f, turn)
    else if IsKing(f.piece) && f.castle then CastleRook(moved, f.to)
    else moved
  }

  /**
   * The en-passant capture that make_move takes back: after it, the side
   * that moved is in check.
   */
  ghost predicate EnpassantRefused(b: seq<bv64>, occ: seq<bv64>, f: MoveFields, turn: Colors.Color)
    requires |b| == 12 && |occ| == 3 && CanMake(b, occ, f, turn)
  {
    IsPawn(f.piece) && f.enpassant
    && var after := BoardsAfter(b, occ, f, turn);
    InCheck(after, turn, OccupanciesOf(after)[2])
  }

  /** A move of any piece but a pawn is never refused, and only castling moves a second piece. */
  lemma NonPawnBoards(b: seq<bv64>, occ: seq<bv64>, f: MoveFields, turn: Colors.Color)
    requires |b| == 12 && |occ| == 3 && CanMake(b, occ, f, turn) && !IsPawn(f.piece)
    ensures !EnpassantRefused(b, occ, f, turn)
    ensures BoardsAfter(b, occ, f, turn) == if IsKing(f.piece) && f.castle then CastleRook(Moved(b, f), f.to) else Moved(b, f)
  {
  }

  // ---------------------------------------------------------------------
  // En passant
  // ---------------------------------------------------------------------

  /** Half the signed distance of a pawn move, rounded toward zero as the engine's `i8` division does. */
  function PushOffset(from: int, to: int): (o: int)
  {
    TruncDiv(to - from, 2)
  }

  /** A pawn move whose offset is a full rank marks a square on the board. */
  predicate EnpassantInRange(from: Square, to: Square) {
    var o := PushOffset(from as int, to as int);
    (o == 8 || o == -8) ==> 0 <= from as int + o < 64
  }

  /** The en-passant square a move leaves: the square `from + offset` after a pawn's two-rank push, else none. */
  function EnpassantAfter(f: MoveFields): (ep: Option<Square>)
    requires IsPawn(f.piece) ==> EnpassantInRange(f.from, f.to)
  {
    var o := PushOffset(f.from as int, f.to as int);
    if IsPawn(f.piece) && (o == 8 || o == -8) then Some((f.from as int + o) as Square) else None
  }

  // ---------------------------------------------------------------------
  // Castling rights
  // ---------------------------------------------------------------------

  /** A king move gives up both rights of the king's colour. */
  function KingRights(c: CastlingRights, f: MoveFields): (r: CastlingRights)
    ensures c.rights <= 15 ==> r.rights <= 15
  {
    if f.piece == WhiteKing then RemoveRight(c, WHITE_KINGSIDE | WHITE_QUEENSIDE)
    else if f.piece == BlackKing then RemoveRight(c, BLACK_KINGSIDE | BLACK_QUEENSIDE)
    else c
  }

  /** A rook leaving its home corner gives up that corner's right. */
  function RookRights(c: CastlingRights, f: MoveFields): (r: CastlingRights)
    ensures c.rights <= 15 ==> r.rights <= 15
  {
    if f.piece == WhiteRook && f.from == A1 then RemoveRight(c, WHITE_QUEENSIDE)
    else if f.piece == WhiteRook && f.from == H1 then RemoveRight(c, WHITE_KINGSIDE)
    else if f.piece == BlackRook && f.from == A8 then RemoveRight(c, BLACK_QUEENSIDE)
    else if f.piece == BlackRook && f.from == H8 then RemoveRight(c, BLACK_KINGSIDE)
    else c
  }

  /** The rights after a move: the king's forfeit, then the rook's. */
  function RightsAfter(c: CastlingRights, f: MoveFields): (r: CastlingRights)
    ensures c.rights <= 15 ==> r.rights <= 15
  {
    RookRights(KingRights(c, f), f)
  }

  // ---------------------------------------------------------------------
  // The hash mask
  // ---------------------------------------------------------------------

  /** Keys of the rook squares a castling move toggles. */
  function CastleMask(mask: bv64, to: Square, pieceKeys: seq<seq<bv64>>): bv64
    requires |pieceKeys| == 12 && forall i | 0 <= i < 12 :: |pieceKeys[i]| == 64
  {
    if to == C1 then Toggle(Toggle(mask, pieceKeys[3][A1]), pieceKeys[3][D1])
    else if to == G1 then Toggle(Toggle(mask, pieceKeys[3][H1]), pieceKeys[3][F1])
    else if to == C8 then Toggle(Toggle(mask, pieceKeys[9][A8]), pieceKeys[9][D8])
    else if to == G8 then Toggle(Toggle(mask, pieceKeys[9][H8]), pieceKeys[9][F8])
    else mask
  }

  /**
   * The first keys make_move toggles: the mover off `from` and onto `to`,
   * the captured piece on `to`, and the old en-passant square.
   */
  function MoveMask(f: MoveFields, enpassant: Option<Square>, pieceKeys: seq<seq<bv64>>, enpassantKeys: seq<bv64>): bv64
    requires KeysShapeExceptCastling(pieceKeys, enpassantKeys)
    requires f.piece != Empty
  {
    var p := Index(f.piece);
    var moving := Toggle(Toggle(0, pieceKeys[p][f.from]), pieceKeys[p][f.to]);
    var captured := if f.capture != Empty then Toggle(moving, pieceKeys[Index(f.capture)][f.to]) else moving;
    if enpassant.Some? then Toggle(captured, enpassantKeys[enpassant.value]) else captured
  }

  /** The piece and en-passant key tables have the engine's sizes. */
  ghost predicate KeysShapeExceptCastling(pieceKeys: seq<seq<bv64>>, enpassantKeys: seq<bv64>) {
    |pieceKeys| == 12 && (forall i | 0 <= i < 12 :: |pieceKeys[i]| == 64) && |enpassantKeys| == 64
  }

  /** A promotion toggles the pawn off `to` and the promoted piece onto it. */
  function PromotionMask(mask: bv64, f: MoveFields, pieceKeys: seq<seq<bv64>>): bv64
    requires |pieceKeys| == 12 && (forall i | 0 <= i < 12 :: |pieceKeys[i]| == 64) && f.piece != Empty
  {
    if f.promotion != Empty
    then Toggle(Toggle(mask, pieceKeys[Index(f.piece)][f.to]), pieceKeys[Index(f.promotion)][f.to])
    else mask
  }

  /** A new en-passant square toggles its key. */
  function EnpassantMask(mask: bv64, f: MoveFields, enpassantKeys: seq<bv64>): bv64
    requires |enpassantKeys| == 64 && (IsPawn(f.piece) ==> EnpassantInRange(f.from, f.to))
  {
    var ep := EnpassantAfter(f);
    if ep.Some? then Toggle(mask, enpassantKeys[ep.value]) else mask
  }

  /** A king move toggles a castling rook's two squares and then the key of the rights held before. */
  function KingMask(mask: bv64, f: MoveFields, castling: CastlingRights, pieceKeys: seq<seq<bv64>>, castlingKeys: seq<bv64>): bv64
    requires |pieceKeys| == 12 && (forall i | 0 <= i < 12 :: |pieceKeys[i]| == 64)
    requires |castlingKeys| == 16 && castling.rights <= 15
  {
    RightsIndex(castling);
    Toggle(if f.castle then CastleMask(mask, f.to, pieceKeys) else mask, castlingKeys[RightsU8(castling)])
  }

  /**
   * The keys the piece moves toggle, in the order the engine toggles them:
   * the mover off `from` and onto `to`, the captured piece, the old
   * en-passant square, a promotion, a new en-passant square, a castling
   * rook, and the old rights (king moves only).
   */
  function PieceMask(f: MoveFields, enpassant: Option<Square>, castling: CastlingRights,
                     pieceKeys: seq<seq<bv64>>, castlingKeys: seq<bv64>, enpassantKeys: seq<bv64>): bv64
    requires KeysShape(pieceKeys, castlingKeys, enpassantKeys) && castling.rights <= 15
    requires f.piece != Empty && (IsPawn(f.piece) ==> EnpassantInRange(f.from, f.to))
  {
    var moved := MoveMask(f, enpassant, pieceKeys, enpassantKeys);
    var pawn := if IsPawn(f.piece) then EnpassantMask(PromotionMask(moved, f, pieceKeys), f, enpassantKeys) else moved;
    if IsKing(f.piece) then KingMask(pawn, f, castling, pieceKeys, castlingKeys) else pawn
  }

  /**
   * The xor mask make_move applies to the hash: the piece moves' keys,
   * then the key of the new rights and the side key.
   */
  function HashMask(f: MoveFields, enpassant: Option<Square>, castling: CastlingRights,
                    pieceKeys: seq<seq<bv64>>, castlingKeys: seq<bv64>, enpassantKeys: seq<bv64>, turnKey: bv64): bv64
    requires KeysShape(pieceKeys, castlingKeys, enpassantKeys) && castling.rights <= 15
    requires f.piece != Empty && (IsPawn(f.piece) ==> EnpassantInRange(f.from, f.to))
  {
    var after := RightsAfter(castling, f);
    RightsIndex(after);
    Toggle(Toggle(PieceMask(f, enpassant, castling, pieceKeys, castlingKeys, enpassantKeys),
                  castlingKeys[RightsU8(after)]), turnKey)
  }

  // ---------------------------------------------------------------------
  // Properties
  // ---------------------------------------------------------------------

  /** Board i of r is board i of b with `gone` removed and `come` added; the other boards are b's. */
  ghost predicate Shifted(b: seq<bv64>, r: seq<bv64>, i: nat, gone: set<Square>, come: set<Square>)
    requires |b| == |r| && i < |b|
  {
    Squares(r[i]) == (Squares(b[i]) - gone) + come
    && forall j | 0 <= j < |b| && j != i :: r[j] == b[j]
  }

  lemma LiftThenPlace(b: seq<bv64>, i: nat, from: Square, to: Square)
    requires i < |b|
    ensures Shifted(b, Place(Lift(b, i, from), i, to), i, {from}, {to})
  {
    SquaresClearBit(b[i], from);
    SquaresSetBit(ClearBit(b[i], from), to);
  }

  /** Setting `to` and then clearing `from` on board i: the order matters when the two coincide. */
  lemma PlaceThenLift(b: seq<bv64>, i: nat, to: Square, from: Square)
    requires i < |b|
    ensures Squares(Lift(Place(b, i, to), i, from)[i]) == (Squares(b[i]) + {to}) - {from}
    ensures forall j | 0 <= j < |b| && j != i :: Lift(Place(b, i, to), i, from)[j] == b[j]
  {
    SquaresSetBit(b[i], to);
    SquaresClearBit(SetBit(b[i], to), from);
  }

  /**
   * Castling to C1, G1, C8 or G8 moves that side's rook from the corner
   * next to the target to the square the king crossed; any other target
   * leaves the boards as they are.
   */
  lemma CastleRookMoves(b: seq<bv64>, to: Square)
    requires |b| == 12
    ensures to == C1 ==> Shifted(b, CastleRook(b, to), Index(WhiteRook), {A1}, {D1})
    ensures to == G1 ==> Shifted(b, CastleRook(b, to), Index(WhiteRook), {H1}, {F1})
    ensures to == C8 ==> Shifted(b, CastleRook(b, to), Index(BlackRook), {A8}, {D8})
    ensures to == G8 ==> Shifted(b, CastleRook(b, to), Index(BlackRook), {H8}, {F8})
    ensures to !in {C1, G1, C8, G8} ==> CastleRook(b, to) == b
  {
    if to == C1 { LiftThenPlace(b, 3, A1, D1); }
    else if to == G1 { LiftThenPlace(b, 3, H1, F1); }
    else if to == C8 { LiftThenPlace(b, 9, A8, D8); }
    else if to == G8 { LiftThenPlace(b, 9, H8, F8); }
  }

  /**
   * The moving piece's board gains `to` and loses `from` (so a move with
   * `from == to` removes the piece); a captured piece on another board
   * loses `to`; every other board is unchanged.
   */
  lemma MovedBoards(b: seq<bv64>, f: MoveFields)
    requires |b| == 12 && f.piece != Empty && Index(f.capture) != Index(f.piece)
    ensures Squares(Moved(b, f)[Index(f.piece)]) == (Squares(b[Index(f.piece)]) + {f.to}) - {f.from}
    ensures f.capture != Empty ==> Squares(Moved(b, f)[Index(f.capture)]) == Squares(b[Index(f.capture)]) - {f.to}
    ensures forall j | 0 <= j < 12 && j != Index(f.piece) && j != Index(f.capture) :: Moved(b, f)[j] == b[j]
  {
    var p := Index(f.piece);
    var moved := Lift(Place(b, p, f.to), p, f.from);
    PlaceThenLift(b, p, f.to, f.from);
    if f.capture != Empty {
      SquaresClearBit(moved[Index(f.capture)], f.to);
      assert Moved(b, f) == Lift(moved, Index(f.capture), f.to);
    } else {
      assert Moved(b, f) == moved;
    }
  }

  /** Whether a move gives up a castling right, stated right by right. */
  predicate Forfeits(f: MoveFields, right: bv8) {
    if right == WHITE_KINGSIDE then f.piece == WhiteKing || (f.piece == WhiteRook && f.from == H1)
    else if right == WHITE_QUEENSIDE then f.piece == WhiteKing || (f.piece == WhiteRook && f.from == A1)
    else if right == BLACK_KINGSIDE then f.piece == BlackKing || (f.piece == BlackRook && f.from == H8)
    else f.piece == BlackKing || (f.piece == BlackRook && f.from == A8)
  }

  /**
   * make_move never adds a castling right: each of the four rights is kept
   * exactly when it was held and the move does not forfeit it.
   */
  lemma RightsAfterForfeits(c: CastlingRights, f: MoveFields, right: bv8)
    requires right == WHITE_KINGSIDE || right == WHITE_QUEENSIDE || right == BLACK_KINGSIDE || right == BLACK_QUEENSIDE
    ensures CanCastle(RightsAfter(c, f), right) <==> CanCastle(c, right) && !Forfeits(f, right)
  {
    if f.piece == WhiteKing {
      RemoveKeeps(c, WHITE_KINGSIDE | WHITE_QUEENSIDE, right);
    } else if f.piece == BlackKing {
      RemoveKeeps(c, BLACK_KINGSIDE | BLACK_QUEENSIDE, right);
    } else if f.piece == WhiteRook && f.from == A1 {
      RemoveKeeps(c, WHITE_QUEENSIDE, right);
    } else if f.piece == WhiteRook && f.from == H1 {
      RemoveKeeps(c, WHITE_KINGSIDE, right);
    } else if f.piece == BlackRook && f.from == A8 {
      RemoveKeeps(c, BLACK_QUEENSIDE, right);
    } else if f.piece == BlackRook && f.from == H8 {
      RemoveKeeps(c, BLACK_KINGSIDE, right);
    }
  }

  /** Removing a mask keeps a right exactly when it was held and lies outside the mask. */
  lemma RemoveKeeps(c: CastlingRights, mask: bv8, right: bv8)
    ensures CanCastle(RemoveRight(c, mask), right) <==> CanCastle(c, right & !mask)
  {
    var r := c.rights;
    assert RemoveRight(c, mask).rights == r & !mask;
    assert (r & !mask) & right == r & (right & !mask);
  }

  /**
   * A pawn's push of two ranks (16 squares either way) leaves the square it
   * crossed as the en-passant square; a move that is not a pawn's leaves
   * none, and a pawn's leaves one only for a distance of 16 or 17.
   */
  lemma EnpassantMidpoint(f: MoveFields)
    requires IsPawn(f.piece) ==> EnpassantInRange(f.from, f.to)
    ensures EnpassantAfter(f).Some? <==>
              IsPawn(f.piece) && (var d := f.to as int - f.from as int; d == 16 || d == 17 || d == -16 || d == -17)
    ensures IsPawn(f.piece) && (f.to as int - f.from as int == 16 || f.from as int - f.to as int == 16) ==>
              EnpassantAfter(f) == Some(((f.from as int + f.to as int) / 2) as Square)
  {
    OffsetFullRank(f.from as int, f.to as int);
  }

  /** The truncated half of a distance is a full rank exactly for distances 16 and 17, either way. */
  lemma OffsetFullRank(from: int, to: int)
    ensures var o, d := PushOffset(from, to), to - from;
            && ((o == 8 || o == -8) <==> (d == 16 || d == 17 || d == -16 || d == -17))
            && (d == 16 || d == -16 ==> from + o == (from + to) / 2)
  {
  }
}
