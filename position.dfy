/**
 * The engine's `Position`: the twelve boards and their occupancies, the
 * side to move, en-passant square, castling rights, clocks, the history
 * stack that make and unmake use, and the Zobrist hash with its key tables.
 */
module Positions {
  import opened Wrappers
  import opened Bits
  import Colors
  import opened Pieces
  import opened Castling
  import opened Moves
  import opened Attacks
  import opened Board
  import opened MoveEffects
  import Fen

  class Position {
    var bitboards: seq<bv64>
    var turn: Colors.Color
    var enpassant: Option<Square>
    var castling: CastlingRights
    var halfmoveClock: nat
    var fullmoveNumber: nat
    var positionStack: seq<HistoryEntry>
    var occupancies: seq<bv64>
    var hash: bv64
    var material: seq<int>
    var depth: nat
    // The Zobrist keys, drawn once when the position is created.
    const pieceKeys: seq<seq<bv64>>
    const castlingKeys: seq<bv64>
    const enpassantKeys: seq<bv64>
    const turnKey: bv64

    /**
     * Twelve boards with the occupancies derived from them, two material
     * totals, rights within the castling key table, key tables of the
     * engine's sizes, and every saved entry likewise well formed.
     */
    ghost predicate Valid()
      reads this
    {
      EntryValid(ToHistoryEntry()) && KeysShape(pieceKeys, castlingKeys, enpassantKeys) && StackValid(positionStack)
    }

    /** `to_history_entry`: the current position as an entry. */
    function ToHistoryEntry(): (e: HistoryEntry)
      reads this
    {
      HistoryEntry(bitboards, turn, enpassant, castling, material, halfmoveClock, fullmoveNumber, occupancies, hash)
    }

    /**
     * `Position::new(None)`: the empty position with 128 default history
     * entries; the key tables are given (the engine fills them from its
     * xorshift generator), and the hash is computed from them.
     */
    constructor (pieceKeys: seq<seq<bv64>>, castlingKeys: seq<bv64>, enpassantKeys: seq<bv64>, turnKey: bv64)
      requires KeysShape(pieceKeys, castlingKeys, enpassantKeys)
      ensures Valid() && depth == 0 && positionStack == seq(128, _ => DefaultEntry())
      ensures forall i | 0 <= i < 12 :: bitboards[i] == 0
      ensures turn == Colors.White && enpassant == None && castling == Castling.New()
      ensures halfmoveClock == 0 && fullmoveNumber == 1 && material == [0, 0]
      ensures this.pieceKeys == pieceKeys && this.castlingKeys == castlingKeys
      ensures this.enpassantKeys == enpassantKeys && this.turnKey == turnKey
      ensures hash == ZobristHash(bitboards, enpassant, castling, turn,
                                  pieceKeys, castlingKeys, enpassantKeys, turnKey)
    {
      var empty := DefaultEntry();
      bitboards := empty.bitboards;
      turn := Colors.White;
      enpassant := None;
      castling := Castling.New();
      halfmoveClock := 0;
      fullmoveNumber := 1;
      positionStack := seq(128, _ => empty);
      occupancies := [0, 0, 0];
      hash := 0;
      material := [0, 0];
      depth := 0;
      this.pieceKeys := pieceKeys;
      this.castlingKeys := castlingKeys;
      this.enpassantKeys := enpassantKeys;
      this.turnKey := turnKey;
      new;
      UpdateOccupancies();
      UpdateHash();
    }

    /** `update_occupancies`: white, black and both, each the or of its boards. */
    method UpdateOccupancies()
      requires |bitboards| == 12
      modifies this`occupancies
      ensures occupancies == OccupanciesOf(bitboards)
    {
      occupancies := OccupanciesOf(bitboards);
    }

    /**
     * `get_piece_at_square`: searches the white boards when the white
     * occupancy has the square and the black boards otherwise, returning
     * the first board that has it, or Empty.
     */
    method GetPieceAtSquare(square: Square) returns (piece: Piece)
      requires |bitboards| == 12 && |occupancies| == 3
      ensures piece == PieceOn(bitboards, occupancies, square)
    {
      var lo := if GetBit(occupancies[0], square) != 0 then 0 else 6;
      var k := 0;
      while k < 6
        invariant 0 <= k <= 6
        invariant FirstHolder(bitboards, lo, lo + 6, square) == FirstHolder(bitboards, lo + k, lo + 6, square)
      {
        if GetBit(bitboards[lo + k], square) != 0 {
          return PieceAt(lo + k);
        }
        k := k + 1;
      }
      return Empty;
    }

    /**
     * `is_square_attacked_w_occupancy`: whether a piece of `color` attacks
     * `square`, sliders being blocked by `both`.  The pawn, knight and king
     * tables hold the masks the leaper functions compute, and the magic
     * slider lookups the on-the-fly ray walks.
     */
    method IsSquareAttackedWOccupancy(square: Square, color: Colors.Color, both: bv64) returns (attacked: bool)
      requires |bitboards| == 12
      ensures attacked <==> Attacked(bitboards, color, square, both)
    {
      var o := SideOffset(color);
      var pawns, knights, bishops, rooks, queens, kings :=
        bitboards[o], bitboards[o + 1], bitboards[o + 2], bitboards[o + 3], bitboards[o + 4], bitboards[o + 5];
      var pawnMask := MaskPawnAttacks(square, Colors.Not(color));
      var knightMask := MaskKnightAttacks(square);
      var bishopMask := BishopAttacksOnTheFly(square, both);
      var rookMask := RookAttacksOnTheFly(square, both);
      var kingMask := MaskKingAttacks(square);
      var bq, rq := bishops | queens, rooks | queens;
      var p, n, b, r, k := pawnMask & pawns, knightMask & knights, bishopMask & bq, rookMask & rq, kingMask & kings;
      var any1 := p | n;
      var any2 := any1 | b;
      var any3 := any2 | r;
      var any := any3 | k;
      attacked := any != 0;
      AttackTest(pawnMask, knightMask, bishopMask, rookMask, kingMask, pawns, knights, bishops, rooks, queens, kings,
                 bq, rq, p, n, b, r, k, any1, any2, any3, any,
                 PawnTargets(square, Colors.Not(color)), KnightTargets(square), BishopAttacks(square, both),
                 RookAttacks(square, both), KingTargets(square));
      AttackersUnfold(bitboards, color, square, both);
    }

    /** `is_square_attacked`: the same, blocked by the position's own pieces. */
    method IsSquareAttacked(square: Square, color: Colors.Color) returns (attacked: bool)
      requires |bitboards| == 12 && |occupancies| == 3
      ensures attacked <==> Attacked(bitboards, color, square, occupancies[2])
    {
      attacked := IsSquareAttackedWOccupancy(square, color, occupancies[2]);
    }

    /**
     * `is_in_check`: the side to move has no king (`get_lsb` gives 64), or
     * the other side attacks its lowest king square.
     */
    method IsInCheck() returns (check: bool)
      requires |bitboards| == 12 && |occupancies| == 3
      ensures check <==> InCheck(bitboards, turn, occupancies[2])
    {
      var kings := bitboards[SideOffset(turn) + 5];
      var kingSquare := GetLsb(kings);
      if kingSquare >= 64 {
        LsbOrNone(kings);
        NoKingInCheck(bitboards, turn, occupancies[2]);
        return true;
      }
      var square := kingSquare as Square;
      KingSquareCheck(bitboards, turn, occupancies[2], kings, square);
      check := IsSquareAttacked(square, Colors.Not(turn));
    }

    /**
     * `update_hash`: recomputes the hash from scratch, popping the lowest
     * square of each board in turn.
     */
    method UpdateHash()
      requires |bitboards| == 12 && KeysShape(pieceKeys, castlingKeys, enpassantKeys) && castling.rights <= 15
      modifies this`hash
      ensures hash == ZobristHash(bitboards, enpassant, castling, turn, pieceKeys, castlingKeys, enpassantKeys, turnKey)
    {
      var h: bv64 := 0;
      for piece := 0 to 12
        invariant h == PiecesHash(bitboards, pieceKeys, piece)
      {
        var keys := pieceKeys[piece];
        var bb := bitboards[piece];
        ghost var left := Squares(bb);
        while bb != 0
          invariant Squares(bb) == left
          invariant XorFrom(h, keys, left) == PiecesHash(bitboards, pieceKeys, piece + 1)
          decreases PopCount(bb)
        {
          var square, rest := PopLsb(bb);
          XorFromLeast(h, keys, left, square);
          h := Toggle(h, keys[square]);
          bb := rest;
          left := left - {square};
        }
        XorFromEmpty(h, keys, left);
      }
      if enpassant != None {
        h := Toggle(h, enpassantKeys[enpassant.value]);
      }
      RightsIndex(castling);
      h := Toggle(h, castlingKeys[RightsU8(castling)]);
      if turn == Colors.Black {
        h := Toggle(h, turnKey);
      }
      hash := h;
    }

    /** Restores the boards, occupancies, hash and material of an entry. */
    method RestoreBoards(e: HistoryEntry)
      modifies this`bitboards, this`occupancies, this`hash, this`material
      ensures bitboards == e.bitboards && occupancies == e.occupancies && hash == e.hash && material == e.material
    {
      bitboards := e.bitboards;
      occupancies := e.occupancies;
      hash := e.hash;
      material := e.material;
    }

    /** Restores the side to move, en-passant square, rights and clocks of an entry. */
    method RestoreState(e: HistoryEntry)
      modifies this`turn, this`enpassant, this`castling, this`halfmoveClock, this`fullmoveNumber
      ensures turn == e.turn && enpassant == e.enpassant && castling == e.castling
      ensures halfmoveClock == e.halfmoveClock && fullmoveNumber == e.fullmoveNumber
    {
      turn := e.turn;
      enpassant := e.enpassant;
      castling := e.castling;
      halfmoveClock := e.halfmoveClock;
      fullmoveNumber := e.fullmoveNumber;
    }

    /** Restores every field an entry holds. */
    method Restore(e: HistoryEntry)
      modifies this`bitboards, this`occupancies, this`hash, this`material
      modifies this`turn, this`enpassant, this`castling, this`halfmoveClock, this`fullmoveNumber
      ensures ToHistoryEntry() == e
    {
      RestoreBoards(e);
      RestoreState(e);
    }

    /**
     * `unmake_move`: steps the depth back and restores every field of the
     * entry saved there.
     */
    method UnmakeMove()
      requires 0 < depth <= |positionStack|
      modifies this
      ensures depth == old(depth) - 1
      ensures ToHistoryEntry() == old(positionStack[depth - 1])
      ensures positionStack == old(positionStack)
      ensures old(Valid()) ==> Valid()
    {
      depth := depth - 1;
      var entry := positionStack[depth];
      Restore(entry);
    }

    /** make_move's first step: the current position goes to slot `depth`, whose full-move number stays. */
    method SaveEntry()
      requires depth < |positionStack|
      modifies this`positionStack
      ensures positionStack == old(positionStack[depth := ToHistoryEntry().(fullmoveNumber := positionStack[depth].fullmoveNumber)])
    {
      var entry := ToHistoryEntry().(fullmoveNumber := positionStack[depth].fullmoveNumber);
      positionStack := positionStack[depth := entry];
    }

    /**
     * The mover leaves `from` for `to`, a captured piece leaves `to`, and
     * their keys and the old en-passant key make up the first mask.
     */
    method MovePiece(f: MoveFields) returns (mask: bv64)
      requires |bitboards| == 12 && f.piece != Empty && KeysShapeExceptCastling(pieceKeys, enpassantKeys)
      modifies this`bitboards
      ensures bitboards == Moved(old(bitboards), f)
      ensures mask == MoveMask(f, enpassant, pieceKeys, enpassantKeys)
    {
      var p := Index(f.piece);
      bitboards := Place(bitboards, p, f.to);
      mask := 0;
      mask := Toggle(mask, pieceKeys[p][f.from]);
      mask := Toggle(mask, pieceKeys[p][f.to]);
      bitboards := Lift(bitboards, p, f.from);
      if f.capture != Empty {
        bitboards := Lift(bitboards, Index(f.capture), f.to);
        mask := Toggle(mask, pieceKeys[Index(f.capture)][f.to]);
      }
      if enpassant.Some? {
        mask := Toggle(mask, enpassantKeys[enpassant.value]);
      }
    }

    /** A promoting pawn is replaced on `to` by the promoted piece. */
    method Promote(f: MoveFields, before: bv64) returns (mask: bv64)
      requires |bitboards| == 12 && f.piece != Empty && KeysShapeExceptCastling(pieceKeys, enpassantKeys)
      modifies this`bitboards
      ensures bitboards == Promoted(old(bitboards), f)
      ensures mask == PromotionMask(before, f, pieceKeys)
    {
      mask := before;
      if f.promotion != Empty {
        var p := Index(f.piece);
        bitboards := Lift(bitboards, p, f.to);
        mask := Toggle(mask, pieceKeys[p][f.to]);
        bitboards := Place(bitboards, Index(f.promotion), f.to);
        mask := Toggle(mask, pieceKeys[Index(f.promotion)][f.to]);
      }
    }

    /**
     * The en-passant capture: when the occupancy recorded before the move
     * has the victim square, the piece found there (by the occupancy's
     * colour) is removed from it.
     */
    method CaptureEnpassant(victimSquare: Square)
      requires |bitboards| == 12 && |occupancies| == 3 && VictimFound(bitboards, occupancies, victimSquare)
      modifies this`bitboards
      ensures bitboards == EpCaptured(old(bitboards), occupancies, victimSquare)
    {
      if GetBit(occupancies[2], victimSquare) != 0 {
        var victim := GetPieceAtSquare(victimSquare);
        bitboards := Lift(bitboards, Index(victim), victimSquare);
      }
    }

    /** A pawn's push by a full rank each way marks the square it crossed. */
    method MarkEnpassant(f: MoveFields, before: bv64) returns (mask: bv64)
      requires IsPawn(f.piece) && EnpassantInRange(f.from, f.to) && |enpassantKeys| == 64
      modifies this`enpassant
      ensures enpassant == EnpassantAfter(f)
      ensures mask == EnpassantMask(before, f, enpassantKeys)
    {
      mask := before;
      var offset := PushOffset(f.from as int, f.to as int);
      if offset == 8 || offset == -8 {
        var square := (f.from as int + offset) as Square;
        enpassant := Some(square);
        mask := Toggle(mask, enpassantKeys[square]);
      } else {
        enpassant := None;
      }
    }

    /**
     * A king move: a castling king's rook goes to the square the king
     * crossed, the old rights' key is toggled, and the king's colour loses
     * both rights.
     */
    method MoveKing(f: MoveFields, before: bv64) returns (mask: bv64)
      requires |bitboards| == 12 && castling.rights <= 15 && IsKing(f.piece)
      requires |pieceKeys| == 12 && (forall i | 0 <= i < 12 :: |pieceKeys[i]| == 64) && |castlingKeys| == 16
      modifies this`bitboards, this`castling
      ensures bitboards == if f.castle then CastleRook(old(bitboards), f.to) else old(bitboards)
      ensures castling == KingRights(old(castling), f)
      ensures mask == KingMask(before, f, old(castling), pieceKeys, castlingKeys)
    {
      mask := before;
      if f.castle {
        if f.to == C1 {
          bitboards := Lift(bitboards, 3, A1);
          mask := Toggle(mask, pieceKeys[3][A1]);
          bitboards := Place(bitboards, 3, D1);
          mask := Toggle(mask, pieceKeys[3][D1]);
        } else if f.to == G1 {
          bitboards := Lift(bitboards, 3, H1);
          mask := Toggle(mask, pieceKeys[3][H1]);
          bitboards := Place(bitboards, 3, F1);
          mask := Toggle(mask, pieceKeys[3][F1]);
        } else if f.to == C8 {
          bitboards := Lift(bitboards, 9, A8);
          mask := Toggle(mask, pieceKeys[9][A8]);
          bitboards := Place(bitboards, 9, D8);
          mask := Toggle(mask, pieceKeys[9][D8]);
        } else if f.to == G8 {
          bitboards := Lift(bitboards, 9, H8);
          mask := Toggle(mask, pieceKeys[9][H8]);
          bitboards := Place(bitboards, 9, F8);
          mask := Toggle(mask, pieceKeys[9][F8]);
        }
      }
      RightsIndex(castling);
      mask := Toggle(mask, castlingKeys[RightsU8(castling)]);
      if f.piece == WhiteKing {
        castling := RemoveRight(castling, WHITE_KINGSIDE | WHITE_QUEENSIDE);
      } else if f.piece == BlackKing {
        castling := RemoveRight(castling, BLACK_KINGSIDE | BLACK_QUEENSIDE);
      }
    }

    /** A rook leaving its home corner gives up that corner's right. */
    method MoveRook(f: MoveFields)
      requires IsRook(f.piece)
      modifies this`castling
      ensures castling == RookRights(old(castling), f)
    {
      if f.piece == WhiteRook {
        if f.from == A1 {
          castling := RemoveRight(castling, WHITE_QUEENSIDE);
        } else if f.from == H1 {
          castling := RemoveRight(castling, WHITE_KINGSIDE);
        }
      } else if f.piece == BlackRook {
        if f.from == A8 {
          castling := RemoveRight(castling, BLACK_QUEENSIDE);
        } else if f.from == H8 {
          castling := RemoveRight(castling, BLACK_KINGSIDE);
        }
      }
    }

    /**
     * The pawn part of make_move: a promotion, then for an en-passant
     * capture the victim's removal, fresh occupancies and the test that the
     * mover is not left in check, then a new en-passant square.  A refused
     * capture stops before the en-passant square is touched.
     */
    method PawnStep(f: MoveFields, before: bv64) returns (refused: bool, mask: bv64)
      requires |bitboards| == 12 && |occupancies| == 3 && KeysShapeExceptCastling(pieceKeys, enpassantKeys)
      requires IsPawn(f.piece) && EnpassantInRange(f.from, f.to)
      requires f.enpassant ==> VictimFound(Promoted(bitboards, f), occupancies, EpVictim(f.to, turn))
      modifies this`bitboards, this`occupancies, this`enpassant
      ensures bitboards == PawnBoards(old(bitboards), old(occupancies), f, turn)
      ensures occupancies == if f.enpassant then OccupanciesOf(bitboards) else old(occupancies)
      ensures refused <==> f.enpassant && InCheck(bitboards, turn, OccupanciesOf(bitboards)[2])
      ensures refused ==> enpassant == old(enpassant)
      ensures !refused ==> enpassant == EnpassantAfter(f)
                           && mask == EnpassantMask(PromotionMask(before, f, pieceKeys), f, enpassantKeys)
    {
      mask := Promote(f, before);
      if f.enpassant {
        CaptureEnpassant(EpVictim(f.to, turn));
        UpdateOccupancies();
        refused := IsInCheck();
        if refused {
          return;
        }
      }
      refused := false;
      mask := MarkEnpassant(f, mask);
    }

    /**
     * The piece moves of make_move: the mover and a captured piece, the
     * en-passant square cleared, then the pawn, king and rook steps.  The
     * mask holds every key toggled so far.
     */
    method PieceSteps(f: MoveFields) returns (refused: bool, mask: bv64)
      requires |bitboards| == 12 && |occupancies| == 3 && castling.rights <= 15
      requires KeysShape(pieceKeys, castlingKeys, enpassantKeys) && CanMake(bitboards, occupancies, f, turn)
      modifies this`bitboards, this`occupancies, this`enpassant, this`castling
      ensures bitboards == BoardsAfter(old(bitboards), old(occupancies), f, turn)
      ensures refused <==> EnpassantRefused(old(bitboards), old(occupancies), f, turn)
      ensures |occupancies| == 3
      ensures !refused ==> enpassant == EnpassantAfter(f) && castling == RightsAfter(old(castling), f)
                           && mask == PieceMask(f, old(enpassant), old(castling), pieceKeys, castlingKeys, enpassantKeys)
    {
      ghost var b0, occ0 := bitboards, occupancies;
      mask := MovePiece(f);
      enpassant := None;
      refused := false;
      if IsPawn(f.piece) {
        refused, mask := PawnMove(f, mask, b0, occ0);
      } else {
        mask := OfficerMove(f, mask, b0, occ0);
      }
    }

    /** The king and rook steps of a move other than a pawn's from boards b0, in terms of the whole move. */
    method OfficerMove(f: MoveFields, before: bv64, ghost b0: seq<bv64>, ghost occ0: seq<bv64>) returns (mask: bv64)
      requires |b0| == 12 && |occ0| == 3 && CanMake(b0, occ0, f, turn) && !IsPawn(f.piece)
      requires bitboards == Moved(b0, f) && castling.rights <= 15 && KeysShape(pieceKeys, castlingKeys, enpassantKeys)
      modifies this`bitboards, this`castling
      ensures bitboards == BoardsAfter(b0, occ0, f, turn) && !EnpassantRefused(b0, occ0, f, turn)
      ensures castling == RightsAfter(old(castling), f)
      ensures mask == if IsKing(f.piece) then KingMask(before, f, old(castling), pieceKeys, castlingKeys) else before
    {
      NonPawnBoards(b0, occ0, f, turn);
      mask := before;
      if IsKing(f.piece) {
        mask := MoveKing(f, mask);
      }
      if IsRook(f.piece) {
        MoveRook(f);
      }
    }

    /** The pawn step of a move from boards b0 and occupancies occ0, in terms of the whole move. */
    method PawnMove(f: MoveFields, before: bv64, ghost b0: seq<bv64>, ghost occ0: seq<bv64>) returns (refused: bool, mask: bv64)
      requires |b0| == 12 && |occ0| == 3 && CanMake(b0, occ0, f, turn) && IsPawn(f.piece)
      requires bitboards == Moved(b0, f) && occupancies == occ0 && KeysShapeExceptCastling(pieceKeys, enpassantKeys)
      modifies this`bitboards, this`occupancies, this`enpassant
      ensures bitboards == BoardsAfter(b0, occ0, f, turn)
      ensures refused <==> EnpassantRefused(b0, occ0, f, turn)
      ensures |occupancies| == 3
      ensures !refused ==> enpassant == EnpassantAfter(f)
                           && mask == EnpassantMask(PromotionMask(before, f, pieceKeys), f, enpassantKeys)
    {
      refused, mask := PawnStep(f, before);
    }

    /**
     * The piece moves, undone from slot `depth` (by `unmake_move`) when
     * they are an en-passant capture that leaves the mover in check.
     */
    method TryPieceSteps(f: MoveFields) returns (refused: bool, mask: bv64)
      requires |bitboards| == 12 && |occupancies| == 3 && castling.rights <= 15
      requires KeysShape(pieceKeys, castlingKeys, enpassantKeys) && CanMake(bitboards, occupancies, f, turn)
      requires depth < |positionStack|
      modifies this
      ensures positionStack == old(positionStack) && depth == old(depth)
      ensures refused <==> EnpassantRefused(old(bitboards), old(occupancies), f, old(turn))
      ensures refused ==> ToHistoryEntry() == old(positionStack[depth])
      ensures !refused ==>
                && bitboards == BoardsAfter(old(bitboards), old(occupancies), f, old(turn))
                && |occupancies| == 3
                && enpassant == EnpassantAfter(f) && castling == RightsAfter(old(castling), f)
                && mask == PieceMask(f, old(enpassant), old(castling), pieceKeys, castlingKeys, enpassantKeys)
                && turn == old(turn) && hash == old(hash) && material == old(material)
                && halfmoveClock == old(halfmoveClock) && fullmoveNumber == old(fullmoveNumber)
    {
      refused, mask := PieceSteps(f);
      if refused {
        depth := depth + 1;
        UnmakeMove();
      }
    }

    /**
     * The last steps of a made move: the new rights' key, fresh
     * occupancies, one level deeper, the side flipped with its key, and the
     * mask applied to the hash.
     */
    method Commit(mask: bv64)
      requires |bitboards| == 12 && castling.rights <= 15 && |castlingKeys| == 16
      modifies this`occupancies, this`depth, this`turn, this`hash
      ensures occupancies == OccupanciesOf(bitboards) && depth == old(depth) + 1 && turn == Colors.Not(old(turn))
      ensures RightsU8(castling) as int < 16
      ensures hash == Toggle(old(hash), Toggle(Toggle(mask, castlingKeys[RightsU8(castling)]), turnKey))
    {
      RightsIndex(castling);
      var full := Toggle(mask, castlingKeys[RightsU8(castling)]);
      UpdateOccupancies();
      depth := depth + 1;
      turn := Colors.Not(turn);
      full := Toggle(full, turnKey);
      hash := Toggle(hash, full);
    }

    /**
     * make_move after the position is saved in slot `depth`: either the
     * move is made (boards, rights, en-passant square and hash as the
     * move-effect functions give, side flipped, depth one deeper) or an
     * en-passant capture that leaves the mover in check is undone from the
     * saved entry.
     */
    method Play(f: MoveFields) returns (made: bool)
      requires |bitboards| == 12 && |occupancies| == 3 && castling.rights <= 15
      requires KeysShape(pieceKeys, castlingKeys, enpassantKeys) && CanMake(bitboards, occupancies, f, turn)
      requires depth < |positionStack|
      requires positionStack[depth] == ToHistoryEntry().(fullmoveNumber := positionStack[depth].fullmoveNumber)
      modifies this
      ensures positionStack == old(positionStack)
      ensures made <==> !EnpassantRefused(old(bitboards), old(occupancies), f, old(turn))
      ensures !made ==> depth == old(depth)
                        && ToHistoryEntry() == old(ToHistoryEntry().(fullmoveNumber := positionStack[depth].fullmoveNumber))
      ensures made ==>
                && bitboards == BoardsAfter(old(bitboards), old(occupancies), f, old(turn))
                && occupancies == OccupanciesOf(bitboards)
                && turn == Colors.Not(old(turn))
                && enpassant == EnpassantAfter(f)
                && castling == RightsAfter(old(castling), f)
                && hash == Toggle(old(hash), HashMask(f, old(enpassant), old(castling),
                                                      pieceKeys, castlingKeys, enpassantKeys, turnKey))
                && material == old(material) && halfmoveClock == old(halfmoveClock)
                && fullmoveNumber == old(fullmoveNumber) && depth == old(depth) + 1
    {
      var refused, mask := TryPieceSteps(f);
      if refused {
        return false;
      }
      Commit(mask);
      return true;
    }

    /**
     * `make_move`.  A capture-only call with a quiet move does nothing.
     * Otherwise the position is saved in slot `depth` (keeping that slot's
     * old full-move number) and the move is played or refused as `Play`
     * says.
     */
    method MakeMove(m: BitPackedMove, onlyCaptures: bool) returns (made: bool)
      requires Valid() && WellFormed(m) && depth < |positionStack|
      requires CanMake(bitboards, occupancies, Fields(m), turn)
      modifies this
      ensures Valid()
      ensures onlyCaptures && !IsCapture(m) ==>
                !made && ToHistoryEntry() == old(ToHistoryEntry()) && depth == old(depth) && positionStack == old(positionStack)
      ensures !(onlyCaptures && !IsCapture(m)) ==>
                positionStack == old(positionStack[depth := ToHistoryEntry().(fullmoveNumber := positionStack[depth].fullmoveNumber)])
      ensures !(onlyCaptures && !IsCapture(m)) && EnpassantRefused(old(bitboards), old(occupancies), Fields(m), old(turn)) ==>
                !made && depth == old(depth)
                && ToHistoryEntry() == old(ToHistoryEntry().(fullmoveNumber := positionStack[depth].fullmoveNumber))
      ensures made <==> !(onlyCaptures && !IsCapture(m)) && !EnpassantRefused(old(bitboards), old(occupancies), Fields(m), old(turn))
      ensures made ==>
                && bitboards == BoardsAfter(old(bitboards), old(occupancies), Fields(m), old(turn))
                && turn == Colors.Not(old(turn))
                && enpassant == EnpassantAfter(Fields(m))
                && castling == RightsAfter(old(castling), Fields(m))
                && hash == Toggle(old(hash), HashMask(Fields(m), old(enpassant), old(castling),
                                                      pieceKeys, castlingKeys, enpassantKeys, turnKey))
                && material == old(material) && halfmoveClock == old(halfmoveClock)
                && fullmoveNumber == old(fullmoveNumber) && depth == old(depth) + 1
    {
      var f := Fields(m);
      if onlyCaptures && f.capture == Empty {
        return false;
      }
      StackValidSave(positionStack, depth, ToHistoryEntry().(fullmoveNumber := positionStack[depth].fullmoveNumber));
      SaveEntry();
      made := Play(f);
    }

    /**
     * make_move followed, when the move was made, by unmake_move: the
     * position comes back except for the full-move number, which
     * make_move does not save and which therefore comes from slot `depth`.
     */
    method MakeThenUnmake(m: BitPackedMove, onlyCaptures: bool) returns (made: bool)
      requires Valid() && WellFormed(m) && depth < |positionStack|
      requires CanMake(bitboards, occupancies, Fields(m), turn)
      modifies this
      ensures Valid() && depth == old(depth)
      ensures onlyCaptures && !IsCapture(m) ==> ToHistoryEntry() == old(ToHistoryEntry())
      ensures !(onlyCaptures && !IsCapture(m)) ==>
                ToHistoryEntry() == old(ToHistoryEntry().(fullmoveNumber := positionStack[depth].fullmoveNumber))
    {
      made := MakeMove(m, onlyCaptures);
      if made {
        UnmakeMove();
      }
    }

    /**
     * `make_null_move` as written: the current position is pushed onto the
     * end of the history stack, one level deeper, the side flipped and its
     * key toggled.
     */
    method MakeNullMoveAsWritten()
      requires Valid()
      modifies this
      ensures Valid()
      ensures positionStack == old(positionStack) + [old(ToHistoryEntry())]
      ensures depth == old(depth) + 1 && turn == Colors.Not(old(turn)) && hash == Toggle(old(hash), turnKey)
      ensures bitboards == old(bitboards) && occupancies == old(occupancies) && enpassant == old(enpassant)
      ensures castling == old(castling) && material == old(material)
      ensures halfmoveClock == old(halfmoveClock) && fullmoveNumber == old(fullmoveNumber)
    {
      positionStack := positionStack + [ToHistoryEntry()];
      depth := depth + 1;
      turn := Colors.Not(turn);
      hash := Toggle(hash, turnKey);
    }

    /**
     * The null move as evidently intended: the position is saved in slot
     * `depth`, where unmake_move looks for it.
     */
    method MakeNullMove()
      requires Valid() && depth < |positionStack|
      modifies this
      ensures Valid()
      ensures positionStack == old(positionStack[depth := ToHistoryEntry()])
      ensures depth == old(depth) + 1 && turn == Colors.Not(old(turn)) && hash == Toggle(old(hash), turnKey)
      ensures bitboards == old(bitboards) && occupancies == old(occupancies) && enpassant == old(enpassant)
      ensures castling == old(castling) && material == old(material)
      ensures halfmoveClock == old(halfmoveClock) && fullmoveNumber == old(fullmoveNumber)
    {
      StackValidSave(positionStack, depth, ToHistoryEntry());
      positionStack := positionStack[depth := ToHistoryEntry()];
      depth := depth + 1;
      turn := Colors.Not(turn);
      hash := Toggle(hash, turnKey);
    }

    /** The corrected null move followed by unmake_move restores the whole position. */
    method NullMoveThenUnmake()
      requires Valid() && depth < |positionStack|
      modifies this
      ensures Valid() && depth == old(depth)
      ensures ToHistoryEntry() == old(ToHistoryEntry())
    {
      MakeNullMove();
      UnmakeMove();
    }

    /**
     * The null move as written followed by unmake_move: what comes back is
     * whatever slot `depth` held, not the position the null move left.
     */
    method NullMoveThenUnmakeAsWritten()
      requires Valid() && depth < |positionStack|
      modifies this
      ensures Valid() && depth == old(depth)
      ensures ToHistoryEntry() == old(positionStack[depth])
    {
      MakeNullMoveAsWritten();
      UnmakeMove();
    }

    /**
     * One square of the `as_fen` walk: at a rank boundary the pending count
     * and '/' are written; an empty square adds to the count, an occupied
     * one flushes it and writes the piece's letter.
     */
    method PlacementSquare(before: string, pending: nat, i: nat, ghost cells: seq<Option<Piece>>)
      returns (fen: string, empty: nat)
      requires |bitboards| == 12 && |occupancies| == 3 && i < 64
      requires |cells| == 64 && cells[i] == Fen.Cell(bitboards, occupancies, i as Square)
      ensures fen + Fen.PlacementFrom(cells, i + 1, empty) == before + Fen.PlacementFrom(cells, i, pending)
    {
      fen, empty := before, pending;
      var sq := i as Square;
      var boundary := i % 8 == 0 && i != 0;
      ghost var pre := if boundary then Fen.EmptyText(empty) + "/" else "";
      ghost var left := if boundary then 0 else empty;
      if boundary {
        if empty != 0 {
          fen := fen + Fen.NatText(empty);
          empty := 0;
        }
        fen := fen + "/";
        Fen.FlushSlash(before, pending);
      }
      assert fen == before + pre;
      if GetBit(occupancies[2], sq) == 0 {
        Fen.EmptySquareStep(cells, i, pending, pre, left, before, fen);
        empty := empty + 1;
      } else {
        var piece := GetPieceAtSquare(sq);
        Fen.PieceSquareStep(cells, i, pending, pre, left, before, fen, piece);
        if empty != 0 {
          fen := fen + Fen.NatText(empty);
          empty := 0;
        }
        fen := fen + [Char(piece)];
      }
    }

    /**
     * The placement part of `as_fen`: walks the 64 squares, counting empty
     * ones and writing the count before a piece letter or a rank separator.
     */
    method PlacementText() returns (fen: string)
      requires |bitboards| == 12 && |occupancies| == 3
      ensures fen == Fen.Placement(Fen.Cells(bitboards, occupancies))
    {
      ghost var cells := Fen.Cells(bitboards, occupancies);
      ghost var whole := Fen.Placement(cells);
      fen := "";
      var empty := 0;
      for i := 0 to 64
        invariant fen + Fen.PlacementFrom(cells, i, empty) == whole
      {
        fen, empty := PlacementSquare(fen, empty, i, cells);
      }
      assert Fen.PlacementFrom(cells, 64, empty) == Fen.EmptyText(empty);
      if empty != 0 {
        fen := fen + Fen.NatText(empty);
      }
    }

    /** `as_fen`: the placement, then the other five fields, each after a space. */
    method AsFen() returns (fen: string)
      requires |bitboards| == 12 && |occupancies| == 3
      ensures fen == Fen.FenText(bitboards, occupancies, turn, castling, enpassant, halfmoveClock, fullmoveNumber)
    {
      fen := PlacementText();
      fen := fen + " " + (if turn == Colors.White then "w" else "b");
      fen := fen + " ";
      ghost var base := fen;
      ghost var wk, wq := CanCastle(castling, WHITE_KINGSIDE), CanCastle(castling, WHITE_QUEENSIDE);
      ghost var bk, bq := CanCastle(castling, BLACK_KINGSIDE), CanCastle(castling, BLACK_QUEENSIDE);
      if CanCastle(castling, WHITE_KINGSIDE) {
        fen := fen + "K";
      }
      assert fen == base + Fen.Letter(wk, 'K');
      if CanCastle(castling, WHITE_QUEENSIDE) {
        fen := fen + "Q";
      }
      Fen.Assoc(base, Fen.Letter(wk, 'K'), Fen.Letter(wq, 'Q'));
      assert fen == base + (Fen.Letter(wk, 'K') + Fen.Letter(wq, 'Q'));
      ghost var t := Fen.Letter(wk, 'K') + Fen.Letter(wq, 'Q');
      if CanCastle(castling, BLACK_KINGSIDE) {
        fen := fen + "k";
      }
      Fen.Assoc(base, t, Fen.Letter(bk, 'k'));
      t := t + Fen.Letter(bk, 'k');
      assert fen == base + t;
      if CanCastle(castling, BLACK_QUEENSIDE) {
        fen := fen + "q";
      }
      Fen.Assoc(base, t, Fen.Letter(bq, 'q'));
      t := t + Fen.Letter(bq, 'q');
      assert fen == base + t;
      ghost var dash: string := if RightsU8(castling) == 0 then "-" else "";
      if RightsU8(castling) == 0 {
        fen := fen + "-";
      }
      Fen.Assoc(base, t, dash);
      assert fen == base + Fen.CastlingText(castling);
      fen := fen + " ";
      match enpassant {
        case Some(s) => fen := fen + SquareName(s);
        case None => fen := fen + "-";
      }
      fen := fen + " " + Fen.NatText(halfmoveClock);
      fen := fen + " " + Fen.NatText(fullmoveNumber);
    }

    /**
     * The placement loop of `set_fen`: clears the twelve boards, then for
     * each character skips '/', moves over a digit's count of squares, or
     * sets the next square on the letter's board.
     */
    method PlaceFromFen(placement: string)
      requires |bitboards| == 12 && Fen.DecodeFrom(placement, 0, Fen.Zeros()).Ok?
      modifies this`bitboards
      ensures bitboards == Fen.DecodeFrom(placement, 0, Fen.Zeros()).value
    {
      for i := 0 to 12
        invariant |bitboards| == 12 && forall j | 0 <= j < i :: bitboards[j] == 0
      {
        bitboards := bitboards[i := 0];
      }
      assert bitboards == Fen.Zeros();
      var pos: nat := 0;
      for k := 0 to |placement|
        invariant |bitboards| == 12
        invariant Fen.DecodeFrom(placement, 0, Fen.Zeros()) == Fen.DecodeFrom(placement[k..], pos, bitboards)
      {
        var c := placement[k];
        assert placement[k..][1..] == placement[k + 1..];
        if c == '/' {
          continue;
        }
        if Fen.IsDigit(c) {
          pos := pos + Fen.DigitValue(c);
          continue;
        }
        Fen.DecodeLetter(placement[k..], pos, bitboards);
        var piece := FromChar(c).value;
        bitboards := bitboards[Index(piece) := SetBit(bitboards[Index(piece)], pos as Square)];
        pos := pos + 1;
      }
      assert placement[|placement|..] == [];
    }

    /**
     * The material loop of `set_fen`: for every square the lookup finds a
     * piece on (through the occupancies as they stand), its tapered value is
     * added to its side's total.
     */
    method AddMaterial(openPst: seq<seq<int>>, endPst: seq<seq<int>>)
      requires |bitboards| == 12 && |occupancies| == 3 && |material| == 2
      requires TableShape(openPst) && TableShape(endPst)
      modifies this`material
      ensures material == Fen.MaterialFrom(bitboards, occupancies, 0, PhaseScore(bitboards), openPst, endPst, old(material))
    {
      ghost var ds := Fen.Contributions(bitboards, occupancies, PhaseScore(bitboards), openPst, endPst);
      for i := 0 to 64
        invariant |material| == 2
        invariant Fen.SumFrom(ds, 0, old(material)) == Fen.SumFrom(ds, i, material)
      {
        var sq := i as Square;
        var piece := GetPieceAtSquare(sq);
        if piece == Empty {
          Fen.MaterialEmptyStep(bitboards, occupancies, PhaseScore(bitboards), openPst, endPst, i, material);
          continue;
        }
        var v := PieceValue(Index(piece), sq, PhaseScore(bitboards), openPst, endPst);
        Fen.MaterialPieceStep(bitboards, occupancies, PhaseScore(bitboards), openPst, endPst, i, material);
        material := Fen.AddSide(material, Index(piece) >= 6, v);
      }
    }

    /**
     * The side, castling, en-passant and counter fields of `set_fen`, read
     * from the split record.
     */
    method ReadState(sections: seq<string>)
      requires |sections| >= 6 && |sections[1]| > 0 && Colors.FromChar(sections[1][0]).Ok?
      requires RightsFromString(sections[2]).Ok? && Fen.ParseEnpassant(sections[3]).Ok?
      requires Fen.ParseU32(sections[4]).Some? && Fen.ParseU32(sections[5]).Some?
      modifies this`turn, this`castling, this`enpassant, this`halfmoveClock, this`fullmoveNumber
      ensures turn == Colors.FromChar(sections[1][0]).value && castling == RightsFromString(sections[2]).value
      ensures enpassant == Fen.ParseEnpassant(sections[3]).value
      ensures halfmoveClock == Fen.ParseU32(sections[4]).value && fullmoveNumber == Fen.ParseU32(sections[5]).value
    {
      turn := Colors.FromChar(sections[1][0]).value;
      var rights := ParseRights(sections[2]);
      castling := rights.value;
      if sections[3] == "-" {
        enpassant := None;
      } else {
        enpassant := Some(SquareOfName(sections[3]).value);
      }
      halfmoveClock := Fen.ParseU32(sections[4]).value;
      fullmoveNumber := Fen.ParseU32(sections[5]).value;
    }

    /** The board field of `set_fen`: the record is split and its placement decoded. */
    method ReadBoards(fen: string)
      requires |bitboards| == 12 && Fen.ParseFen(fen).Ok?
      modifies this`bitboards
      ensures bitboards == Fen.ParseFen(fen).value.boards
    {
      Fen.ParsedFields(fen);
      var sections := Fen.Split(fen, ' ');
      PlaceFromFen(sections[0]);
    }

    /** The remaining fields of `set_fen`, read from the split record. */
    method ReadFields(fen: string)
      requires Fen.ParseFen(fen).Ok?
      modifies this`turn, this`castling, this`enpassant, this`halfmoveClock, this`fullmoveNumber
      ensures var r := Fen.ParseFen(fen).value;
              turn == r.turn && castling == r.castling && enpassant == r.enpassant
              && halfmoveClock == r.halfmove && fullmoveNumber == r.fullmove
    {
      Fen.ParsedFields(fen);
      var sections := Fen.Split(fen, ' ');
      ReadState(sections);
    }

    /** The fields a FEN record sets, as they stand. */
    function Record(): (r: Fen.FenFields)
      reads this
      ensures r.boards == bitboards && r.turn == turn && r.castling == castling && r.enpassant == enpassant
      ensures r.halfmove == halfmoveClock && r.fullmove == fullmoveNumber
    {
      Fen.FenFields(bitboards, turn, castling, enpassant, halfmoveClock, fullmoveNumber)
    }

    /**
     * The boards of `set_fen` as written, followed by its material loop,
     * which looks pieces up through the occupancies as they stand and adds
     * to the totals as they stand.
     */
    method ReadBoardsAndMaterial(fen: string, openPst: seq<seq<int>>, endPst: seq<seq<int>>)
      requires |bitboards| == 12 && |occupancies| == 3 && |material| == 2 && Fen.ParseFen(fen).Ok?
      requires TableShape(openPst) && TableShape(endPst)
      modifies this`bitboards, this`material
      ensures bitboards == Fen.ParseFen(fen).value.boards
      ensures material == Fen.MaterialFrom(bitboards, occupancies, 0, PhaseScore(bitboards), openPst, endPst, old(material))
    {
      ReadBoards(fen);
      AddMaterial(openPst, endPst);
    }

    /** Every field `set_fen` reads from the record. */
    method ReadRecord(fen: string)
      requires |bitboards| == 12 && Fen.ParseFen(fen).Ok?
      modifies this`bitboards, this`turn, this`castling, this`enpassant, this`halfmoveClock, this`fullmoveNumber
      ensures Fen.ParseFen(fen) == Ok(Record())
    {
      ReadBoards(fen);
      ReadFields(fen);
    }

    /**
     * The end of `set_fen`: occupancies, then the hash, recomputed from the
     * fields read, which leaves the position well formed.
     */
    method Settle()
      requires |bitboards| == 12 && castling.rights <= 15 && |material| == 2
      requires KeysShape(pieceKeys, castlingKeys, enpassantKeys) && StackValid(positionStack)
      modifies this`occupancies, this`hash
      ensures Valid() && occupancies == OccupanciesOf(bitboards)
      ensures hash == ZobristHash(bitboards, enpassant, castling, turn, pieceKeys, castlingKeys, enpassantKeys, turnKey)
    {
      UpdateOccupancies();
      UpdateHash();
    }

    /** The fields after the boards, then the occupancies and the hash, as `set_fen` ends. */
    method ReadFieldsAndSettle(fen: string)
      requires |material| == 2 && KeysShape(pieceKeys, castlingKeys, enpassantKeys) && StackValid(positionStack)
      requires Fen.ParseFen(fen).Ok? && bitboards == Fen.ParseFen(fen).value.boards
      modifies this`turn, this`castling, this`enpassant, this`halfmoveClock, this`fullmoveNumber
      modifies this`occupancies, this`hash
      ensures Valid() && Fen.ParseFen(fen) == Ok(Record())
      ensures hash == ZobristHash(bitboards, enpassant, castling, turn, pieceKeys, castlingKeys, enpassantKeys, turnKey)
    {
      ReadFields(fen);
      Settle();
    }

    /**
     * The material of the corrected `set_fen`: occupancies recomputed
     * first, totals from zero, the new boards' pieces summed.
     */
    method CountMaterial(openPst: seq<seq<int>>, endPst: seq<seq<int>>)
      requires |bitboards| == 12 && TableShape(openPst) && TableShape(endPst)
      modifies this`occupancies, this`material
      ensures occupancies == OccupanciesOf(bitboards)
      ensures material == Fen.MaterialOf(bitboards, openPst, endPst)
    {
      UpdateOccupancies();
      material := [0, 0];
      AddMaterial(openPst, endPst);
    }

    /** What the corrected `set_fen` derives from the fields read: occupancies, material and hash. */
    method Derive(openPst: seq<seq<int>>, endPst: seq<seq<int>>)
      requires |bitboards| == 12 && castling.rights <= 15 && KeysShape(pieceKeys, castlingKeys, enpassantKeys)
      requires TableShape(openPst) && TableShape(endPst) && StackValid(positionStack)
      modifies this`occupancies, this`material, this`hash
      ensures Valid()
      ensures material == Fen.MaterialOf(bitboards, openPst, endPst)
      ensures hash == ZobristHash(bitboards, enpassant, castling, turn, pieceKeys, castlingKeys, enpassantKeys, turnKey)
    {
      CountMaterial(openPst, endPst);
      Settle();
    }

    /**
     * `set_fen` as written: the boards are decoded, then the material loop
     * runs with the occupancies of the previous position (they are only
     * recomputed at the end) and adds to the previous totals; then the other
     * fields, the occupancies and the hash are set.  The engine panics on a
     * record that does not read.
     */
    method SetFenAsWritten(fen: string, openPst: seq<seq<int>>, endPst: seq<seq<int>>)
      requires Valid() && Fen.ParseFen(fen).Ok? && TableShape(openPst) && TableShape(endPst)
      modifies this`bitboards, this`turn, this`castling, this`enpassant, this`halfmoveClock, this`fullmoveNumber
      modifies this`occupancies, this`material, this`hash
      ensures Valid() && Fen.ParseFen(fen) == Ok(Record())
      ensures material == Fen.MaterialFrom(bitboards, old(occupancies), 0, PhaseScore(bitboards), openPst, endPst, old(material))
      ensures hash == ZobristHash(bitboards, enpassant, castling, turn, pieceKeys, castlingKeys, enpassantKeys, turnKey)
    {
      ReadBoardsAndMaterial(fen, openPst, endPst);
      ReadFieldsAndSettle(fen);
    }

    /**
     * `set_fen` as evidently intended: the occupancies are recomputed before
     * the material loop and the totals start from zero, so the material is
     * that of the new boards whatever the position held before.
     */
    method SetFen(fen: string, openPst: seq<seq<int>>, endPst: seq<seq<int>>)
      requires Valid() && Fen.ParseFen(fen).Ok? && TableShape(openPst) && TableShape(endPst)
      modifies this`bitboards, this`turn, this`castling, this`enpassant, this`halfmoveClock, this`fullmoveNumber
      modifies this`occupancies, this`material, this`hash
      ensures Valid() && Fen.ParseFen(fen) == Ok(Record())
      ensures material == Fen.MaterialOf(bitboards, openPst, endPst)
      ensures hash == ZobristHash(bitboards, enpassant, castling, turn, pieceKeys, castlingKeys, enpassantKeys, turnKey)
    {
      ReadRecord(fen);
      Derive(openPst, endPst);
    }
  }

  /**
   * A position where the null move as written loses the side to move: a
   * new position after one null move has Black to move, and a second null
   * move with its unmake gives back slot 1's default entry, White to move.
   */
  method NullMoveCounterexample() returns (before: HistoryEntry, after: HistoryEntry)
    ensures before.turn == Colors.Black && after.turn == Colors.White
  {
    var pieceKeys := seq(12, _ => seq(64, _ => 0 as bv64));
    var p := new Position(pieceKeys, seq(16, _ => 0), seq(64, _ => 0), 0);
    p.MakeNullMoveAsWritten();
    before := p.ToHistoryEntry();
    p.NullMoveThenUnmakeAsWritten();
    after := p.ToHistoryEntry();
  }

  /**
   * A position where `set_fen` as written loses White's material: a new
   * position set to a lone white king counts that king against the empty
   * occupancies it held before, so White's total stays 0, where counting
   * against the new occupancies gives the king's 12000 (phase 0, so the
   * ending value, with all-zero tables).
   */
  method SetFenCounterexample() returns (asWritten: seq<int>, intended: seq<int>)
    ensures |asWritten| == 2 && |intended| == 2
    ensures asWritten[0] == 0 && intended[0] == 12000
  {
    asWritten := LoneKingAsWritten();
    intended := LoneKingIntended();
  }

  /** A new position with all-zero keys: empty boards and occupancies, no material. */
  method ZeroKeyed() returns (p: Position)
    ensures fresh(p) && p.Valid() && p.occupancies == [0, 0, 0] && p.material == [0, 0]
  {
    p := new Position(seq(12, _ => seq(64, _ => 0 as bv64)), seq(16, _ => 0), seq(64, _ => 0), 0);
    OccupanciesEmpty(p.bitboards);
  }

  /** White's material after `set_fen` as written to the lone king on a new position. */
  method LoneKingAsWritten() returns (m: seq<int>)
    ensures |m| == 2 && m[0] == 0
  {
    var pst := seq(12, _ => seq(64, _ => 0));
    var p := ZeroKeyed();
    Fen.LoneKingParses();
    p.SetFenAsWritten(Fen.LoneKingText(), pst, pst);
    Fen.MaterialFromStale(p.bitboards, PhaseScore(p.bitboards), pst, pst, [0, 0]);
    m := p.material;
  }

  /** White's material after the corrected `set_fen` to the lone king on a new position. */
  method LoneKingIntended() returns (m: seq<int>)
    ensures |m| == 2 && m[0] == 12000
  {
    var pst := seq(12, _ => seq(64, _ => 0));
    var p := ZeroKeyed();
    Fen.LoneKingParses();
    p.SetFen(Fen.LoneKingText(), pst, pst);
    Fen.LoneKingMaterial(pst);
    m := p.material;
  }
}
