// Pseudo-legal move generation, the legality filter and perft
// (src/movegen.rs).  Every generator walks bitboards lowest square first,
// so its result is described by `ForEach`: the moves of the least square
// of a set, then those of the rest.
module MoveGeneration {
  import opened Wrappers
  import opened Bits
  import Colors
  import opened Pieces
  import opened Castling
  import opened Moves
  import opened Attacks
  import Rays
  import opened Board
  import opened MoveEffects
  import opened Positions

  const E8: Square := 4
  const E1: Square := 60

  // ---------------------------------------------------------------------
  // Walking a set of squares in ascending order
  // ---------------------------------------------------------------------

  /** The moves `f` gives for each square of S, lowest square first. */
  ghost function ForEach(S: set<Square>, f: Square -> seq<MoveFields>): seq<MoveFields>
    decreases |S|
  {
    if S == {} then [] else
      var s := Least(S);
      f(s) + ForEach(S - {s}, f)
  }

  /** A move is listed exactly when some square of S contributes it. */
  lemma {:induction false} ForEachMember(S: set<Square>, f: Square -> seq<MoveFields>, m: MoveFields)
    ensures m in ForEach(S, f) <==> exists s :: s in S && m in f(s)
    decreases |S|
  {
    if S != {} {
      var s := Least(S);
      ForEachMember(S - {s}, f, m);
      assert ForEach(S, f) == f(s) + ForEach(S - {s}, f);
    }
  }

  /** Squares that each contribute one move give one move per square. */
  lemma {:induction false} ForEachSingles(S: set<Square>, f: Square -> seq<MoveFields>)
    requires forall s | s in S :: |f(s)| == 1
    ensures |ForEach(S, f)| == |S|
    decreases |S|
  {
    if S != {} {
      var s := Least(S);
      ForEachSingles(S - {s}, f);
    }
  }

  /** One step of a walk: popping the least square moves its moves to the output. */
  lemma ForEachPop(S: set<Square>, f: Square -> seq<MoveFields>, s: Square, rest: set<Square>,
                   done: seq<MoveFields>, whole: seq<MoveFields>)
    requires S != {} && s == Least(S) && rest == S - {s}
    requires done + ForEach(S, f) == whole
    ensures (done + f(s)) + ForEach(rest, f) == whole
  {
    assert ForEach(S, f) == f(s) + ForEach(rest, f);
  }

  // ---------------------------------------------------------------------
  // Leaper and slider moves
  // ---------------------------------------------------------------------

  /** The kinds of piece whose moves are the squares they attack. */
  datatype Kind = Knight | Bishop | Rook | Queen | King

  /** The board index of a kind within its colour's six boards. */
  function KindOffset(kind: Kind): (k: nat)
    ensures 1 <= k <= 5
  {
    match kind
    case Knight => 1
    case Bishop => 2
    case Rook => 3
    case Queen => 4
    case King => 5
  }

  /** The squares a piece of the kind on s attacks, sliders stopping at `blockers`. */
  ghost function Reach(kind: Kind, s: Square, blockers: bv64): set<Square> {
    match kind
    case Knight => KnightTargets(s)
    case Bishop => BishopAttacks(s, blockers)
    case Rook => RookAttacks(s, blockers)
    case Queen => BishopAttacks(s, blockers) + RookAttacks(s, blockers)
    case King => KingTargets(s)
  }

  /**
   * The attack mask of the kind on s: the knight and king tables, and the
   * magic lookups, which return the on-the-fly rays (the queen's being the
   * union of the bishop's and the rook's).
   */
  method AttacksFrom(kind: Kind, s: Square, blockers: bv64) returns (a: bv64)
    ensures Squares(a) == Reach(kind, s, blockers)
  {
    match kind {
      case Knight => a := MaskKnightAttacks(s);
      case Bishop => a := BishopAttacksOnTheFly(s, blockers);
      case Rook => a := RookAttacksOnTheFly(s, blockers);
      case Queen =>
        var diagonal := BishopAttacksOnTheFly(s, blockers);
        var straight := RookAttacksOnTheFly(s, blockers);
        a := diagonal | straight;
        SquaresOr(diagonal, straight);
      case King => a := MaskKingAttacks(s);
    }
  }

  /** The occupancy the sliders see: the side to move's pieces and the opponent's. */
  function Both(occ: seq<bv64>): bv64
    requires |occ| == 3
  {
    occ[0] | occ[1]
  }

  /** A move of `piece` from `from` to `to` taking whatever stands on `to` (Empty when nothing does). */
  function PieceMove(b: seq<bv64>, occ: seq<bv64>, piece: Piece, from: Square, to: Square): (m: MoveFields)
    requires |b| == 12 && |occ| == 3
  {
    MoveFields(from, to, piece, PieceOn(b, occ, to), Empty, false, false)
  }

  /** For each target square, the one move of `piece` from `from` to it. */
  ghost function Single(b: seq<bv64>, occ: seq<bv64>, piece: Piece, from: Square): Square -> seq<MoveFields>
    requires |b| == 12 && |occ| == 3
  {
    to => [PieceMove(b, occ, piece, from, to)]
  }

  /** The squares a piece of the kind on s may move to: those it attacks not held by its own side. */
  ghost function Destinations(occ: seq<bv64>, turn: Colors.Color, kind: Kind, s: Square): set<Square>
    requires |occ| == 3
  {
    Reach(kind, s, Both(occ)) - Squares(occ[Colors.Index(turn)])
  }

  /** The piece of the kind and colour. */
  function KindPiece(turn: Colors.Color, kind: Kind): (p: Piece)
    ensures p != Empty && Index(p) == SideOffset(turn) + KindOffset(kind)
  {
    PieceAt(SideOffset(turn) + KindOffset(kind))
  }

  /** For each square, the moves of the kind's piece standing there. */
  ghost function FromSquare(b: seq<bv64>, occ: seq<bv64>, turn: Colors.Color, kind: Kind): Square -> seq<MoveFields>
    requires |b| == 12 && |occ| == 3
  {
    s => ForEach(Destinations(occ, turn, kind, s), Single(b, occ, KindPiece(turn, kind), s))
  }

  /** The moves of all the side's pieces of the kind, lowest source square first. */
  ghost function KindMoves(b: seq<bv64>, occ: seq<bv64>, turn: Colors.Color, kind: Kind): seq<MoveFields>
    requires |b| == 12 && |occ| == 3
  {
    ForEach(Squares(b[SideOffset(turn) + KindOffset(kind)]), FromSquare(b, occ, turn, kind))
  }

  /** Moves of `piece` from `from` to every square of `targets`, popped lowest first. */
  method TargetMoves(b: seq<bv64>, occ: seq<bv64>, piece: Piece, from: Square, targets: bv64)
    returns (moves: seq<MoveFields>)
    requires |b| == 12 && |occ| == 3
    ensures moves == ForEach(Squares(targets), Single(b, occ, piece, from))
  {
    ghost var f := Single(b, occ, piece, from);
    moves := [];
    var rest := targets;
    while rest != 0
      invariant moves + ForEach(Squares(rest), f) == ForEach(Squares(targets), f)
      decreases PopCount(rest)
    {
      var to, rest' := PopLsb(rest);
      var captured := PieceOn(b, occ, to);
      ForEachPop(Squares(rest), f, to, Squares(rest'), moves, ForEach(Squares(targets), f));
      moves := moves + [MoveFields(from, to, piece, captured, Empty, false, false)];
      rest := rest';
    }
    SquaresZero();
  }

  /** One square of `a & !f`. */
  lemma AndNotAt(a: bv64, f: bv64, t: Square)
    ensures Bit(a & !f, t) <==> Bit(a, t) && !Bit(f, t)
  {
  }

  /** `attacks & !friendly`: the attacked squares not held by the own side. */
  lemma AttacksNotFriendly(attacks: bv64, friendly: bv64, targets: bv64)
    requires targets == attacks & !friendly
    ensures Squares(targets) == Squares(attacks) - Squares(friendly)
  {
    forall t: Square ensures t in Squares(targets) <==> t in Squares(attacks) && t !in Squares(friendly) {
      AndNotAt(attacks, friendly, t);
    }
  }

  /**
   * `generate_knight_moves`, `generate_bishop_moves`, `generate_rook_moves`,
   * `generate_queen_moves` and the first part of `generate_king_moves`:
   * every piece of the kind pops its attacked squares not held by its own
   * side, lowest source and then lowest target first.
   */
  method GenerateKindMoves(b: seq<bv64>, occ: seq<bv64>, turn: Colors.Color, kind: Kind)
    returns (moves: seq<MoveFields>)
    requires |b| == 12 && |occ| == 3
    ensures moves == KindMoves(b, occ, turn, kind)
  {
    var board := Index(KindPiece(turn, kind));
    var pieces := b[board];
    ghost var f := FromSquare(b, occ, turn, kind);
    ghost var whole := KindMoves(b, occ, turn, kind);
    KindMovesStart(b, occ, turn, kind, board);
    moves := [];
    while pieces != 0
      invariant moves + ForEach(Squares(pieces), f) == whole
      decreases PopCount(pieces)
    {
      var from, rest := PopLsb(pieces);
      var step := PieceMoves(b, occ, turn, kind, from);
      ForEachPop(Squares(pieces), f, from, Squares(rest), moves, whole);
      moves := moves + step;
      pieces := rest;
    }
    SquaresZero();
  }

  /** The kind's moves are those of the squares of the piece's own bitboard. */
  lemma KindMovesStart(b: seq<bv64>, occ: seq<bv64>, turn: Colors.Color, kind: Kind, board: nat)
    requires |b| == 12 && |occ| == 3 && board == SideOffset(turn) + KindOffset(kind)
    ensures [] + ForEach(Squares(b[board]), FromSquare(b, occ, turn, kind)) == KindMoves(b, occ, turn, kind)
  {
    var pieces := Squares(b[board]);
    assert pieces == Squares(b[SideOffset(turn) + KindOffset(kind)]);
    EmptyPrefix(ForEach(pieces, FromSquare(b, occ, turn, kind)));
  }

  lemma EmptyPrefix(w: seq<MoveFields>)
    ensures [] + w == w
  {
  }

  /** The moves of the kind's piece on `from`: its attacks not held by its own side. */
  method PieceMoves(b: seq<bv64>, occ: seq<bv64>, turn: Colors.Color, kind: Kind, from: Square)
    returns (moves: seq<MoveFields>)
    requires |b| == 12 && |occ| == 3
    ensures moves == FromSquare(b, occ, turn, kind)(from)
  {
    var friendly := occ[Colors.Index(turn)];
    var attacks := AttacksFrom(kind, from, Both(occ));
    var targets := attacks & !friendly;
    AttacksNotFriendly(attacks, friendly, targets);
    moves := TargetMoves(b, occ, KindPiece(turn, kind), from, targets);
  }

  // ---------------------------------------------------------------------
  // Pawn moves
  // ---------------------------------------------------------------------

  const A7: Square := 8
  const A2: Square := 48

  /** The rank of eight squares starting at `first`, which is A7 or A2. */
  predicate OnRank(s: Square, first: Square)
    requires first == A7 || first == A2
  {
    first <= s && s <= first + 7
  }

  /** The pawn of the side. */
  function PawnOf(turn: Colors.Color): (p: Piece)
    ensures IsPawn(p) && Index(p) == SideOffset(turn)
  {
    if turn == Colors.White then WhitePawn else BlackPawn
  }

  /** The rank from which a push promotes: the 7th for White (A7..H7), the 2nd for Black. */
  function PromotionRank(turn: Colors.Color): Square {
    if turn == Colors.White then A7 else A2
  }

  /** The rank from which a pawn may advance two squares: the 2nd for White, the 7th for Black. */
  function HomeRank(turn: Colors.Color): Square {
    if turn == Colors.White then A2 else A7
  }

  /** The square `n` squares ahead of s for the side (towards rank 8 for White, whose squares are lower). */
  function Ahead(s: Square, turn: Colors.Color, n: Square): Square {
    if turn == Colors.White then s - n else s + n
  }

  /** The pieces a pawn promotes to, in the order the generators list them. */
  function PromotionPieces(turn: Colors.Color): (ps: seq<Piece>)
    ensures |ps| == 4 && Empty !in ps
  {
    if turn == Colors.White then [WhiteQueen, WhiteRook, WhiteBishop, WhiteKnight]
    else [BlackQueen, BlackRook, BlackBishop, BlackKnight]
  }

  /** The four promotions of a pawn move from `from` to `to` taking `capture`. */
  function Promotions(from: Square, to: Square, turn: Colors.Color, capture: Piece): (r: seq<MoveFields>)
    ensures |r| == 4
    ensures forall i | 0 <= i < 4 ::
              r[i] == MoveFields(from, to, PawnOf(turn), capture, PromotionPieces(turn)[i], false, false)
  {
    var ps := PromotionPieces(turn);
    var pawn := PawnOf(turn);
    [MoveFields(from, to, pawn, capture, ps[0], false, false), MoveFields(from, to, pawn, capture, ps[1], false, false),
     MoveFields(from, to, pawn, capture, ps[2], false, false), MoveFields(from, to, pawn, capture, ps[3], false, false)]
  }

  /** A quiet move: no capture, no promotion, no flag. */
  function Quiet(from: Square, to: Square, piece: Piece): MoveFields {
    MoveFields(from, to, piece, Empty, Empty, false, false)
  }

  /**
   * The quiet pawn moves from `source`, given whether the square ahead and
   * the square two ahead are empty: nothing when the square ahead is
   * occupied; the four promotions from the promotion rank; otherwise the
   * single push, followed from the home rank by the double push when the
   * square two ahead is empty too.
   */
  function PushList(source: Square, turn: Colors.Color, frontEmpty: bool, secondEmpty: bool): (r: seq<MoveFields>)
    ensures forall m | m in r :: m.from == source && m.piece == PawnOf(turn) && m.capture == Empty && !m.castle && !m.enpassant
    ensures forall m | m in r :: m.to == Ahead(source, turn, 8) || (m.to == Ahead(source, turn, 16) && secondEmpty)
    ensures r != [] <==> frontEmpty
    ensures OnRank(source, PromotionRank(turn)) && frontEmpty ==>
              |r| == 4 && forall i | 0 <= i < 4 :: r[i].to == Ahead(source, turn, 8) && r[i].promotion == PromotionPieces(turn)[i]
    ensures !OnRank(source, PromotionRank(turn)) ==> forall m | m in r :: m.promotion == Empty
    ensures Quiet(source, Ahead(source, turn, 16), PawnOf(turn)) in r <==>
              !OnRank(source, PromotionRank(turn)) && OnRank(source, HomeRank(turn)) && frontEmpty && secondEmpty
  {
    var pawn := PawnOf(turn);
    var target := Ahead(source, turn, 8);
    if !frontEmpty then []
    else if OnRank(source, PromotionRank(turn)) then Promotions(source, target, turn, Empty)
    else
      [Quiet(source, target, pawn)]
      + (if OnRank(source, HomeRank(turn)) && secondEmpty then [Quiet(source, Ahead(source, turn, 16), pawn)] else [])
  }

  /** The quiet moves of the pawn on `source`, reading the two squares ahead on the board. */
  function Pushes(b: seq<bv64>, occ: seq<bv64>, turn: Colors.Color, source: Square): seq<MoveFields>
    requires |b| == 12 && |occ| == 3
  {
    PushList(source, turn, PieceOn(b, occ, Ahead(source, turn, 8)) == Empty, PieceOn(b, occ, Ahead(source, turn, 16)) == Empty)
  }

  /** The capture of the piece on `to` by the pawn on `source`: four promotions from the promotion rank, else one move. */
  function PawnCapture(b: seq<bv64>, occ: seq<bv64>, turn: Colors.Color, source: Square, to: Square): seq<MoveFields>
    requires |b| == 12 && |occ| == 3
  {
    var captured := PieceOn(b, occ, to);
    if OnRank(source, PromotionRank(turn)) then Promotions(source, to, turn, captured)
    else [MoveFields(source, to, PawnOf(turn), captured, Empty, false, false)]
  }

  /** For each target square, the captures there by the pawn on `source`. */
  ghost function CapturesFrom(b: seq<bv64>, occ: seq<bv64>, turn: Colors.Color, source: Square): Square -> seq<MoveFields>
    requires |b| == 12 && |occ| == 3
  {
    to => PawnCapture(b, occ, turn, source, to)
  }

  /** The squares the pawn on `source` attacks that the opponent occupies. */
  ghost function CaptureTargets(occ: seq<bv64>, turn: Colors.Color, source: Square): set<Square>
    requires |occ| == 3
  {
    PawnTargets(source, turn) * Squares(occ[Colors.Index(Colors.Not(turn))])
  }

  /** The en-passant capture from `source`: one move, flagged, when the pawn attacks the en-passant square. */
  ghost function EnpassantMoves(turn: Colors.Color, enpassant: Option<Square>, source: Square): seq<MoveFields> {
    if enpassant.Some? && enpassant.value in PawnTargets(source, turn) then
      [MoveFields(source, enpassant.value, PawnOf(turn), Empty, Empty, false, true)]
    else []
  }

  /** All moves of the pawn on `source`: pushes, then captures lowest target first, then the en-passant capture. */
  ghost function PawnMovesAt(b: seq<bv64>, occ: seq<bv64>, turn: Colors.Color, enpassant: Option<Square>, source: Square): seq<MoveFields>
    requires |b| == 12 && |occ| == 3
  {
    Pushes(b, occ, turn, source) + ForEach(CaptureTargets(occ, turn, source), CapturesFrom(b, occ, turn, source))
    + EnpassantMoves(turn, enpassant, source)
  }

  /** For each square, the moves of a pawn standing there. */
  ghost function PawnsFrom(b: seq<bv64>, occ: seq<bv64>, turn: Colors.Color, enpassant: Option<Square>): Square -> seq<MoveFields>
    requires |b| == 12 && |occ| == 3
  {
    s => PawnMovesAt(b, occ, turn, enpassant, s)
  }

  /** The rank a side's pawns never stand on legally and the generator skips: the 8th for White, the 1st for Black. */
  function LastRank(turn: Colors.Color): bv64 {
    if turn == Colors.White then 0xFF else 0xFF00_0000_0000_0000
  }

  /** The side's pawns the generator walks. */
  function PawnSources(b: seq<bv64>, turn: Colors.Color): bv64
    requires |b| == 12
  {
    b[SideOffset(turn)] & !LastRank(turn)
  }

  /** `generate_pawn_moves`: the moves of every pawn off the last rank, lowest square first. */
  ghost function PawnMoves(b: seq<bv64>, occ: seq<bv64>, turn: Colors.Color, enpassant: Option<Square>): seq<MoveFields>
    requires |b| == 12 && |occ| == 3
  {
    ForEach(Squares(PawnSources(b, turn)), PawnsFrom(b, occ, turn, enpassant))
  }

  /** The capture loop of the pawn generators: the targets are popped lowest first. */
  method CaptureMoves(b: seq<bv64>, occ: seq<bv64>, turn: Colors.Color, source: Square, targets: bv64)
    returns (moves: seq<MoveFields>)
    requires |b| == 12 && |occ| == 3
    ensures moves == ForEach(Squares(targets), CapturesFrom(b, occ, turn, source))
  {
    ghost var f := CapturesFrom(b, occ, turn, source);
    moves := [];
    var rest := targets;
    while rest != 0
      invariant moves + ForEach(Squares(rest), f) == ForEach(Squares(targets), f)
      decreases PopCount(rest)
    {
      var to, rest' := PopLsb(rest);
      ForEachPop(Squares(rest), f, to, Squares(rest'), moves, ForEach(Squares(targets), f));
      moves := moves + PawnCapture(b, occ, turn, source, to);
      rest := rest';
    }
    SquaresZero();
  }

  /** The en-passant test of the pawn generators: the attack mask restricted to the en-passant square. */
  function EnpassantAttacks(attacks: bv64, ep: Square): bv64 {
    attacks & (1 << ep)
  }

  /** One square of `attacks & (1 << ep)`. */
  lemma SingleAt(attacks: bv64, ep: Square, t: Square)
    ensures Bit(EnpassantAttacks(attacks, ep), t) <==> Bit(attacks, t) && t == ep
  {
  }

  /** The en-passant test `attacks & (1 << ep)` holds the en-passant square alone, or nothing when the pawn does not attack it. */
  lemma EnpassantHit(attacks: bv64, ep: Square, hit: bv64)
    requires hit == EnpassantAttacks(attacks, ep)
    ensures hit != 0 <==> ep in Squares(attacks)
    ensures hit != 0 ==> Squares(hit) == {ep}
  {
    forall t: Square ensures t in Squares(hit) <==> t in Squares(attacks) && t == ep {
      SingleAt(attacks, ep, t);
    }
    NonZeroIff(hit);
  }

  /** The lowest bit of a mask holding one square is that square. */
  lemma LsbOfSingle(hit: bv64, ep: Square, lsb: bv64)
    requires Squares(hit) == {ep} && lsb == GetLsb(hit)
    ensures lsb < 64 && lsb as Square == ep
  {
    NonZeroIff(hit);
    LsbIsLeast(hit);
  }

  /** The en-passant part of the loop body: `attacks` is the pawn's attack mask. */
  method EnpassantMovesOf(turn: Colors.Color, enpassant: Option<Square>, source: Square, attacks: bv64)
    returns (moves: seq<MoveFields>)
    requires Squares(attacks) == PawnTargets(source, turn)
    ensures moves == EnpassantMoves(turn, enpassant, source)
  {
    moves := [];
    if enpassant.Some? {
      var hit := EnpassantAttacks(attacks, enpassant.value);
      EnpassantHit(attacks, enpassant.value, hit);
      if hit != 0 {
        var lsb := GetLsb(hit);
        LsbOfSingle(hit, enpassant.value, lsb);
        var target := lsb as Square;
        moves := [MoveFields(source, target, PawnOf(turn), Empty, Empty, false, true)];
      }
    }
  }

  /** The body of the pawn generators' loop for one pawn. */
  method PawnMovesFrom(b: seq<bv64>, occ: seq<bv64>, turn: Colors.Color, enpassant: Option<Square>, source: Square)
    returns (moves: seq<MoveFields>)
    requires |b| == 12 && |occ| == 3
    ensures moves == PawnMovesAt(b, occ, turn, enpassant, source)
  {
    var attacks := MaskPawnAttacks(source, turn);
    var enemy := occ[Colors.Index(Colors.Not(turn))];
    var targets := attacks & enemy;
    SquaresAnd(attacks, enemy);
    var captures := CaptureMoves(b, occ, turn, source, targets);
    var enpassantMoves := EnpassantMovesOf(turn, enpassant, source, attacks);
    moves := Pushes(b, occ, turn, source) + captures + enpassantMoves;
  }

  /** `generate_white_pawn_moves` and `generate_black_pawn_moves`, chosen by the side to move. */
  method GeneratePawnMoves(b: seq<bv64>, occ: seq<bv64>, turn: Colors.Color, enpassant: Option<Square>)
    returns (moves: seq<MoveFields>)
    requires |b| == 12 && |occ| == 3
    ensures moves == PawnMoves(b, occ, turn, enpassant)
  {
    ghost var f := PawnsFrom(b, occ, turn, enpassant);
    var pawns := PawnSources(b, turn);
    moves := [];
    while pawns != 0
      invariant moves + ForEach(Squares(pawns), f) == PawnMoves(b, occ, turn, enpassant)
      decreases PopCount(pawns)
    {
      var source, rest := PopLsb(pawns);
      var step := PawnMovesFrom(b, occ, turn, enpassant, source);
      ForEachPop(Squares(pawns), f, source, Squares(rest), moves, PawnMoves(b, occ, turn, enpassant));
      moves := moves + step;
      pawns := rest;
    }
    SquaresZero();
  }

  // ---------------------------------------------------------------------
  // What the generators list
  // ---------------------------------------------------------------------

  /**
   * The moves of a kind are exactly the moves from a square holding the
   * side's piece of that kind to a square it attacks that its own side does
   * not hold, each taking whatever stands on its target.
   */
  lemma KindMovesMembers(b: seq<bv64>, occ: seq<bv64>, turn: Colors.Color, kind: Kind, m: MoveFields)
    requires |b| == 12 && |occ| == 3
    ensures m in KindMoves(b, occ, turn, kind) <==>
              m.from in Squares(b[SideOffset(turn) + KindOffset(kind)])
              && m.to in Reach(kind, m.from, Both(occ)) && m.to !in Squares(occ[Colors.Index(turn)])
              && m == PieceMove(b, occ, KindPiece(turn, kind), m.from, m.to)
  {
    if m in KindMoves(b, occ, turn, kind) {
      KindMovesFrom(b, occ, turn, kind, m);
    } else if m.from in Squares(b[SideOffset(turn) + KindOffset(kind)])
              && m.to in Destinations(occ, turn, kind, m.from)
              && m == PieceMove(b, occ, KindPiece(turn, kind), m.from, m.to) {
      KindMovesTo(b, occ, turn, kind, m);
    }
  }

  /** A listed move goes from one of the pieces to one of its destinations. */
  lemma KindMovesFrom(b: seq<bv64>, occ: seq<bv64>, turn: Colors.Color, kind: Kind, m: MoveFields)
    requires |b| == 12 && |occ| == 3 && m in KindMoves(b, occ, turn, kind)
    ensures m.from in Squares(b[SideOffset(turn) + KindOffset(kind)])
            && m.to in Destinations(occ, turn, kind, m.from)
            && m == PieceMove(b, occ, KindPiece(turn, kind), m.from, m.to)
  {
    var S := Squares(b[SideOffset(turn) + KindOffset(kind)]);
    var f := FromSquare(b, occ, turn, kind);
    ForEachMember(S, f, m);
    var s :| s in S && m in f(s);
    FromSquareMembers(b, occ, turn, kind, s, m);
  }

  /** A move from one of the pieces to one of its destinations is listed. */
  lemma KindMovesTo(b: seq<bv64>, occ: seq<bv64>, turn: Colors.Color, kind: Kind, m: MoveFields)
    requires |b| == 12 && |occ| == 3
    requires m.from in Squares(b[SideOffset(turn) + KindOffset(kind)])
             && m.to in Destinations(occ, turn, kind, m.from)
             && m == PieceMove(b, occ, KindPiece(turn, kind), m.from, m.to)
    ensures m in KindMoves(b, occ, turn, kind)
  {
    var S := Squares(b[SideOffset(turn) + KindOffset(kind)]);
    var f := FromSquare(b, occ, turn, kind);
    FromSquareMembers(b, occ, turn, kind, m.from, m);
    ForEachMember(S, f, m);
  }

  /** The moves of the piece on s go from s to its destinations. */
  lemma FromSquareMembers(b: seq<bv64>, occ: seq<bv64>, turn: Colors.Color, kind: Kind, s: Square, m: MoveFields)
    requires |b| == 12 && |occ| == 3
    ensures m in FromSquare(b, occ, turn, kind)(s) <==>
              m.from == s && m.to in Destinations(occ, turn, kind, s) && m == PieceMove(b, occ, KindPiece(turn, kind), s, m.to)
  {
    ForEachMember(Destinations(occ, turn, kind, s), Single(b, occ, KindPiece(turn, kind), s), m);
  }

  /**
   * With occupancies that agree with the boards, a piece move never lands
   * on a square of its own side, and it captures exactly when its target
   * is occupied.
   */
  lemma KindMovesSound(b: seq<bv64>, occ: seq<bv64>, turn: Colors.Color, kind: Kind, m: MoveFields)
    requires |b| == 12 && |occ| == 3 && Consistent(b, occ)
    requires m in KindMoves(b, occ, turn, kind)
    ensures m.piece == KindPiece(turn, kind) && m.promotion == Empty && !m.castle && !m.enpassant
    ensures m.to !in Squares(occ[Colors.Index(turn)])
    ensures m.capture != Empty <==> m.to in Squares(occ[2])
  {
    KindMovesMembers(b, occ, turn, kind, m);
    PieceOnOccupied(b, occ, m.to);
  }

  /** The moves of one pawn: its pushes, its captures on attacked enemy squares, and its en-passant capture. */
  lemma PawnMovesAtMembers(b: seq<bv64>, occ: seq<bv64>, turn: Colors.Color, enpassant: Option<Square>, source: Square,
                           m: MoveFields)
    requires |b| == 12 && |occ| == 3
    ensures m in PawnMovesAt(b, occ, turn, enpassant, source) <==>
              m in Pushes(b, occ, turn, source)
              || (m.to in CaptureTargets(occ, turn, source) && m in PawnCapture(b, occ, turn, source, m.to))
              || m in EnpassantMoves(turn, enpassant, source)
  {
    var f := CapturesFrom(b, occ, turn, source);
    var targets := CaptureTargets(occ, turn, source);
    ForEachMember(targets, f, m);
    if m in ForEach(targets, f) {
      var t :| t in targets && m in f(t);
      PawnCaptureTo(b, occ, turn, source, t, m);
    }
  }

  /** A pawn capture onto `to` goes to `to`. */
  lemma PawnCaptureTo(b: seq<bv64>, occ: seq<bv64>, turn: Colors.Color, source: Square, to: Square, m: MoveFields)
    requires |b| == 12 && |occ| == 3 && m in PawnCapture(b, occ, turn, source, to)
    ensures m.to == to
  {
  }

  /**
   * Every pawn move goes from its square; an en-passant move goes to the
   * en-passant square, which the pawn attacks; any other move is either a
   * push straight ahead onto an empty square, or a capture of the piece on
   * an attacked square the opponent occupies; and a move promotes exactly
   * when the pawn stands on its promotion rank.
   */
  lemma PawnMoveKinds(b: seq<bv64>, occ: seq<bv64>, turn: Colors.Color, enpassant: Option<Square>, source: Square,
                      m: MoveFields)
    requires |b| == 12 && |occ| == 3
    requires m in PawnMovesAt(b, occ, turn, enpassant, source)
    ensures m.from == source && m.piece == PawnOf(turn) && !m.castle
    ensures m.enpassant ==> enpassant == Some(m.to) && m.to in PawnTargets(source, turn)
                            && m.capture == Empty && m.promotion == Empty
    ensures !m.enpassant ==>
              (m.capture == Empty && PieceOn(b, occ, m.to) == Empty
               && (m.to == Ahead(source, turn, 8) || m.to == Ahead(source, turn, 16)))
              || (m.to in CaptureTargets(occ, turn, source) && m.capture == PieceOn(b, occ, m.to))
    ensures !m.enpassant ==> (m.promotion != Empty <==> OnRank(source, PromotionRank(turn)))
  {
    PawnMovesAtMembers(b, occ, turn, enpassant, source, m);
    if m in Pushes(b, occ, turn, source) {
      PushKinds(b, occ, turn, source, m);
    } else if !m.enpassant {
      CaptureKinds(b, occ, turn, source, m);
    }
  }

  /** A push goes ahead onto an empty square and promotes exactly from the promotion rank. */
  lemma PushKinds(b: seq<bv64>, occ: seq<bv64>, turn: Colors.Color, source: Square, m: MoveFields)
    requires |b| == 12 && |occ| == 3 && m in Pushes(b, occ, turn, source)
    ensures m.capture == Empty && PieceOn(b, occ, m.to) == Empty
    ensures m.to == Ahead(source, turn, 8) || m.to == Ahead(source, turn, 16)
    ensures m.promotion != Empty <==> OnRank(source, PromotionRank(turn))
  {
    var r := Pushes(b, occ, turn, source);
    if OnRank(source, PromotionRank(turn)) {
      var i :| 0 <= i < |r| && r[i] == m;
      assert m.promotion == PromotionPieces(turn)[i];
    }
  }

  /** A capture promotes exactly from the promotion rank. */
  lemma CaptureKinds(b: seq<bv64>, occ: seq<bv64>, turn: Colors.Color, source: Square, m: MoveFields)
    requires |b| == 12 && |occ| == 3 && m in PawnCapture(b, occ, turn, source, m.to)
    ensures m.capture == PieceOn(b, occ, m.to) && !m.enpassant
    ensures m.promotion != Empty <==> OnRank(source, PromotionRank(turn))
  {
    var r := PawnCapture(b, occ, turn, source, m.to);
    var i :| 0 <= i < |r| && r[i] == m;
  }

  /** A pawn move captures a piece when the boards agree with the occupancies. */
  lemma PawnCaptureTakesPiece(b: seq<bv64>, occ: seq<bv64>, turn: Colors.Color, source: Square, to: Square)
    requires |b| == 12 && |occ| == 3 && Consistent(b, occ)
    requires to in CaptureTargets(occ, turn, source)
    ensures PieceOn(b, occ, to) != Empty
  {
    PieceOnOccupied(b, occ, to);
    HeldSplit(b, 0, 6, 12);
  }

  /** The pawn on `source` has an en-passant move exactly when it attacks the en-passant square. */
  lemma EnpassantGenerated(b: seq<bv64>, occ: seq<bv64>, turn: Colors.Color, enpassant: Option<Square>, source: Square)
    requires |b| == 12 && |occ| == 3
    ensures (exists m :: m in PawnMovesAt(b, occ, turn, enpassant, source) && m.enpassant) <==>
              enpassant.Some? && enpassant.value in PawnTargets(source, turn)
  {
    if enpassant.Some? && enpassant.value in PawnTargets(source, turn) {
      var e := MoveFields(source, enpassant.value, PawnOf(turn), Empty, Empty, false, true);
      PawnMovesAtMembers(b, occ, turn, enpassant, source, e);
      assert e in PawnMovesAt(b, occ, turn, enpassant, source);
    }
    forall m | m in PawnMovesAt(b, occ, turn, enpassant, source) && m.enpassant
      ensures enpassant.Some? && enpassant.value in PawnTargets(source, turn)
    {
      PawnMoveKinds(b, occ, turn, enpassant, source, m);
    }
  }

  /** The pawn moves are the moves of the side's pawns off the last rank. */
  lemma PawnMovesMembers(b: seq<bv64>, occ: seq<bv64>, turn: Colors.Color, enpassant: Option<Square>, m: MoveFields)
    requires |b| == 12 && |occ| == 3
    ensures m in PawnMoves(b, occ, turn, enpassant) <==>
              m.from in Squares(PawnSources(b, turn)) && m in PawnMovesAt(b, occ, turn, enpassant, m.from)
  {
    ForEachMember(Squares(PawnSources(b, turn)), PawnsFrom(b, occ, turn, enpassant), m);
    forall s | m in PawnMovesAt(b, occ, turn, enpassant, s) ensures m.from == s {
      PawnMoveKinds(b, occ, turn, enpassant, s, m);
    }
  }

  // ---------------------------------------------------------------------
  // Castling and the whole generator
  // ---------------------------------------------------------------------

  /** The king's starting square of the side: E1 for White, E8 for Black. */
  function KingHome(turn: Colors.Color): Square {
    if turn == Colors.White then E1 else E8
  }

  /**
   * One castle of the side to move, the king passing `passed` on its way
   * to `to`: offered when both squares are empty, the right is held, and
   * neither the king's square nor `passed` is attacked by the opponent.
   * The square next to the rook on the queen side is not looked at.
   */
  ghost function CastleTo(b: seq<bv64>, occ: seq<bv64>, turn: Colors.Color, c: CastlingRights, right: bv8,
                          passed: Square, to: Square): seq<MoveFields>
    requires |b| == 12 && |occ| == 3
  {
    var enemy := Colors.Not(turn);
    if PieceOn(b, occ, to) == Empty && PieceOn(b, occ, passed) == Empty && CanCastle(c, right)
       && !Attacked(b, enemy, KingHome(turn), occ[2]) && !Attacked(b, enemy, passed, occ[2])
    then [MoveFields(KingHome(turn), to, KindPiece(turn, King), Empty, Empty, true, false)]
    else []
  }

  /** `generate_castle_moves`: the king side first, then the queen side. */
  ghost function CastleMoves(b: seq<bv64>, occ: seq<bv64>, turn: Colors.Color, c: CastlingRights): seq<MoveFields>
    requires |b| == 12 && |occ| == 3
  {
    if turn == Colors.White then
      CastleTo(b, occ, turn, c, WHITE_KINGSIDE, F1, G1) + CastleTo(b, occ, turn, c, WHITE_QUEENSIDE, D1, C1)
    else
      CastleTo(b, occ, turn, c, BLACK_KINGSIDE, F8, G8) + CastleTo(b, occ, turn, c, BLACK_QUEENSIDE, D8, C8)
  }

  /** One castle, tested on the position in the order the engine tests it. */
  method TryCastle(p: Position, right: bv8, passed: Square, to: Square) returns (moves: seq<MoveFields>)
    requires |p.bitboards| == 12 && |p.occupancies| == 3
    ensures moves == CastleTo(p.bitboards, p.occupancies, p.turn, p.castling, right, passed, to)
  {
    moves := [];
    var onTarget := p.GetPieceAtSquare(to);
    var onPassed := p.GetPieceAtSquare(passed);
    if onTarget == Empty && onPassed == Empty && CanCastle(p.castling, right) {
      var enemy := Colors.Not(p.turn);
      var kingAttacked := p.IsSquareAttacked(KingHome(p.turn), enemy);
      if !kingAttacked {
        var passedAttacked := p.IsSquareAttacked(passed, enemy);
        if !passedAttacked {
          moves := [MoveFields(KingHome(p.turn), to, KindPiece(p.turn, King), Empty, Empty, true, false)];
        }
      }
    }
  }

  /** `generate_castle_moves`. */
  method GenerateCastleMoves(p: Position) returns (moves: seq<MoveFields>)
    requires |p.bitboards| == 12 && |p.occupancies| == 3
    ensures moves == CastleMoves(p.bitboards, p.occupancies, p.turn, p.castling)
  {
    var kingSide, queenSide;
    if p.turn == Colors.White {
      kingSide := TryCastle(p, WHITE_KINGSIDE, F1, G1);
      queenSide := TryCastle(p, WHITE_QUEENSIDE, D1, C1);
    } else {
      kingSide := TryCastle(p, BLACK_KINGSIDE, F8, G8);
      queenSide := TryCastle(p, BLACK_QUEENSIDE, D8, C8);
    }
    moves := kingSide + queenSide;
  }

  /** The four castles: side, right, the square the king passes and its target. */
  predicate CastleRow(turn: Colors.Color, right: bv8, passed: Square, to: Square) {
    if turn == Colors.White then
      (right, passed, to) == (WHITE_KINGSIDE, F1, G1) || (right, passed, to) == (WHITE_QUEENSIDE, D1, C1)
    else
      (right, passed, to) == (BLACK_KINGSIDE, F8, G8) || (right, passed, to) == (BLACK_QUEENSIDE, D8, C8)
  }

  /** The castling move of the side's king to `to`. */
  function CastleMove(turn: Colors.Color, to: Square): MoveFields {
    MoveFields(KingHome(turn), to, KindPiece(turn, King), Empty, Empty, true, false)
  }

  /** The conditions under which one castle is offered. */
  ghost predicate CastleAllowed(b: seq<bv64>, occ: seq<bv64>, turn: Colors.Color, c: CastlingRights,
                                right: bv8, passed: Square, to: Square)
    requires |b| == 12 && |occ| == 3
  {
    PieceOn(b, occ, passed) == Empty && PieceOn(b, occ, to) == Empty && CanCastle(c, right)
    && !Attacked(b, Colors.Not(turn), KingHome(turn), occ[2]) && !Attacked(b, Colors.Not(turn), passed, occ[2])
  }

  /** One castle's list holds its move exactly when the castle is allowed. */
  lemma CastleToMember(b: seq<bv64>, occ: seq<bv64>, turn: Colors.Color, c: CastlingRights,
                       right: bv8, passed: Square, to: Square, m: MoveFields)
    requires |b| == 12 && |occ| == 3
    ensures m in CastleTo(b, occ, turn, c, right, passed, to) <==>
              m == CastleMove(turn, to) && CastleAllowed(b, occ, turn, c, right, passed, to)
  {
  }

  /**
   * A castle is offered exactly when its right is held, the square the
   * king passes and its target are empty, and neither the king's square
   * nor the square it passes is attacked by the opponent.
   */
  lemma CastleOffered(b: seq<bv64>, occ: seq<bv64>, turn: Colors.Color, c: CastlingRights,
                      right: bv8, passed: Square, to: Square)
    requires |b| == 12 && |occ| == 3 && CastleRow(turn, right, passed, to)
    ensures CastleMove(turn, to) in CastleMoves(b, occ, turn, c) <==> CastleAllowed(b, occ, turn, c, right, passed, to)
  {
    var m := CastleMove(turn, to);
    if turn == Colors.White {
      CastleToMember(b, occ, turn, c, WHITE_KINGSIDE, F1, G1, m);
      CastleToMember(b, occ, turn, c, WHITE_QUEENSIDE, D1, C1, m);
    } else {
      CastleToMember(b, occ, turn, c, BLACK_KINGSIDE, F8, G8, m);
      CastleToMember(b, occ, turn, c, BLACK_QUEENSIDE, D8, C8, m);
    }
  }

  /** A move in one castle's list is that castle's king move. */
  lemma CastleToMove(b: seq<bv64>, occ: seq<bv64>, turn: Colors.Color, c: CastlingRights,
                     right: bv8, passed: Square, to: Square, m: MoveFields)
    requires |b| == 12 && |occ| == 3 && m in CastleTo(b, occ, turn, c, right, passed, to)
    ensures m == CastleMove(turn, to)
  {
  }

  /** Every castle offered is one of the four castles of the side, flagged and capturing nothing. */
  lemma CastleMovesShape(b: seq<bv64>, occ: seq<bv64>, turn: Colors.Color, c: CastlingRights, m: MoveFields)
    requires |b| == 12 && |occ| == 3 && m in CastleMoves(b, occ, turn, c)
    ensures exists right, passed :: CastleRow(turn, right, passed, m.to) && m == CastleMove(turn, m.to)
  {
    if turn == Colors.White {
      if m in CastleTo(b, occ, turn, c, WHITE_KINGSIDE, F1, G1) {
        CastleToMove(b, occ, turn, c, WHITE_KINGSIDE, F1, G1, m);
        assert CastleRow(turn, WHITE_KINGSIDE, F1, m.to);
      } else {
        CastleToMove(b, occ, turn, c, WHITE_QUEENSIDE, D1, C1, m);
        assert CastleRow(turn, WHITE_QUEENSIDE, D1, m.to);
      }
    } else {
      if m in CastleTo(b, occ, turn, c, BLACK_KINGSIDE, F8, G8) {
        CastleToMove(b, occ, turn, c, BLACK_KINGSIDE, F8, G8, m);
        assert CastleRow(turn, BLACK_KINGSIDE, F8, m.to);
      } else {
        CastleToMove(b, occ, turn, c, BLACK_QUEENSIDE, D8, C8, m);
        assert CastleRow(turn, BLACK_QUEENSIDE, D8, m.to);
      }
    }
  }

  /** The pseudo-legal moves in the engine's order: pawns, knights, bishops, rooks, queens, king and castles. */
  ghost function PseudoLegal(b: seq<bv64>, occ: seq<bv64>, turn: Colors.Color, enpassant: Option<Square>,
                             c: CastlingRights): seq<MoveFields>
    requires |b| == 12 && |occ| == 3
  {
    PawnMoves(b, occ, turn, enpassant) + KindMoves(b, occ, turn, Knight) + KindMoves(b, occ, turn, Bishop)
    + KindMoves(b, occ, turn, Rook) + KindMoves(b, occ, turn, Queen)
    + (KindMoves(b, occ, turn, King) + CastleMoves(b, occ, turn, c))
  }

  /** `generate_king_moves`: the king's steps, then the castles. */
  method GenerateKingMoves(p: Position) returns (moves: seq<MoveFields>)
    requires |p.bitboards| == 12 && |p.occupancies| == 3
    ensures moves == KindMoves(p.bitboards, p.occupancies, p.turn, King) + CastleMoves(p.bitboards, p.occupancies, p.turn, p.castling)
  {
    var steps := GenerateKindMoves(p.bitboards, p.occupancies, p.turn, King);
    var castles := GenerateCastleMoves(p);
    moves := steps + castles;
  }

  /** `generate_moves`: the generators' lists concatenated in order. */
  method GenerateMoves(p: Position) returns (moves: seq<MoveFields>)
    requires |p.bitboards| == 12 && |p.occupancies| == 3
    ensures moves == PseudoLegal(p.bitboards, p.occupancies, p.turn, p.enpassant, p.castling)
  {
    var b, occ, turn := p.bitboards, p.occupancies, p.turn;
    var pawns := GeneratePawnMoves(b, occ, turn, p.enpassant);
    var knights := GenerateKindMoves(b, occ, turn, Knight);
    var bishops := GenerateKindMoves(b, occ, turn, Bishop);
    var rooks := GenerateKindMoves(b, occ, turn, Rook);
    var queens := GenerateKindMoves(b, occ, turn, Queen);
    var kings := GenerateKingMoves(p);
    moves := pawns + knights + bishops + rooks + queens + kings;
  }

  // ---------------------------------------------------------------------
  // Generated moves can be made
  // ---------------------------------------------------------------------

  /**
   * The generators build the struct form of a move; make_move is modelled
   * on the packed form, so a generated move is packed with the move
   * setters before it is made.  Packing loses nothing.
   */
  function Encode(f: MoveFields): (m: BitPackedMove)
    ensures WellFormed(m) && Fields(m) == f
  {
    var m0 := Moves.New(f.from, f.to, f.piece);
    var m1 := SetCapture(m0, f.capture);
    var m2 := SetPromotion(m1, f.promotion);
    var m3 := if f.castle then SetCastle(m2) else m2;
    var m4 := if f.enpassant then SetEnpassant(m3) else m3;
    var f0 := MoveFields(f.from, f.to, f.piece, Empty, Empty, false, false);
    assert Holds(m0, f0);
    CaptureHolds(m0, f0, f.capture, m1);
    PromotionHolds(m1, f0.(capture := f.capture), f.promotion, m2);
    var f2 := f0.(capture := f.capture, promotion := f.promotion);
    assert Holds(m3, f2.(castle := f.castle)) by {
      if f.castle { CastleHolds(m2, f2, m3); }
    }
    assert Holds(m4, f) by {
      if f.enpassant { EnpassantHolds(m3, f2.(castle := f.castle), m4); }
    }
    m4
  }

  /** A well-formed packed move whose seven fields read as `f`. */
  ghost predicate Holds(m: BitPackedMove, f: MoveFields) {
    WellFormed(m) && Fields(m) == f
  }

  lemma CaptureHolds(m: BitPackedMove, f: MoveFields, p: Piece, r: BitPackedMove)
    requires Holds(m, f) && r == SetCapture(m, p)
    ensures Holds(r, f.(capture := p))
  {
    PieceSettersKeepWellFormed(m, p);
    PieceOfCode(p);
    FromReadExact(m);
    FromReadExact(r);
  }

  lemma PromotionHolds(m: BitPackedMove, f: MoveFields, p: Piece, r: BitPackedMove)
    requires Holds(m, f) && r == SetPromotion(m, p)
    ensures Holds(r, f.(promotion := p))
  {
    PieceSettersKeepWellFormed(m, p);
    PieceOfCode(p);
    FromReadExact(m);
    FromReadExact(r);
  }

  lemma CastleHolds(m: BitPackedMove, f: MoveFields, r: BitPackedMove)
    requires Holds(m, f) && r == SetCastle(m)
    ensures Holds(r, f.(castle := true))
  {
    FlagSettersKeepWellFormed(m);
    FromReadExact(m);
    FromReadExact(r);
  }

  lemma EnpassantHolds(m: BitPackedMove, f: MoveFields, r: BitPackedMove)
    requires Holds(m, f) && r == SetEnpassant(m)
    ensures Holds(r, f.(enpassant := true))
  {
    FlagSettersKeepWellFormed(m);
    FromReadExact(m);
    FromReadExact(r);
    assert GetFrom(r) == GetFrom(m) && GetTo(r) == GetTo(m);
    assert GetPiece(r) == GetPiece(m) && GetCapture(r) == GetCapture(m) && GetPromotion(r) == GetPromotion(m);
    assert IsCastle(r) == IsCastle(m) && IsEnpassant(r);
  }

  /** Every move lies within the board for the en-passant square computation. */
  lemma InRange(from: Square, to: Square)
    ensures EnpassantInRange(from, to)
  {
    var d := to as int - from as int;
    assert d >= 0 ==> TruncDiv(d, 2) == d / 2;
    assert d < 0 ==> TruncDiv(d, 2) == -((-d) / 2);
  }

  /** Boards that agree on square s report the same first holder of s. */
  lemma {:induction false} FirstHolderAgrees(b: seq<bv64>, c: seq<bv64>, lo: nat, hi: nat, s: Square)
    requires lo <= hi <= |b| == |c|
    requires forall i | lo <= i < hi :: Bit(b[i], s) == Bit(c[i], s)
    ensures FirstHolder(b, lo, hi, s) == FirstHolder(c, lo, hi, s)
    decreases hi - lo
  {
    if lo < hi {
      assert Bit(b[lo], s) == Bit(c[lo], s);
      FirstHolderAgrees(b, c, lo + 1, hi, s);
    }
  }

  /** A quiet step leaves every board as it was on any square other than its two ends. */
  lemma MovedElsewhere(b: seq<bv64>, f: MoveFields, v: Square, i: nat)
    requires |b| == 12 && f.piece != Empty && f.capture == Empty && v != f.from && v != f.to && i < 12
    ensures Bit(Moved(b, f)[i], v) == Bit(b[i], v)
  {
    var p := Index(f.piece);
    var placed := Place(b, p, f.to);
    var lifted := Lift(placed, p, f.from);
    assert Moved(b, f) == lifted;
    if i == p {
      var added := SetBit(b[p], f.to);
      SetBitOther(b[p], f.to, v);
      ClearBitOther(added, f.from, v);
      assert placed[p] == added && lifted[p] == ClearBit(added, f.from);
      assert Bit(added, v) == Bit(b[p], v);
    } else {
      assert lifted[i] == placed[i] == b[i];
    }
  }

  /** The pawn an en-passant capture removes stands on neither end of the capturing move. */
  lemma VictimOffPath(from: Square, to: Square, turn: Colors.Color)
    requires to in PawnTargets(from, turn)
    ensures EpVictim(to, turn) != to && EpVictim(to, turn) != from
  {
    assert FileOf(to + 8) == FileOf(to) && FileOf(to - 8) == FileOf(to);
  }

  /**
   * make_move finds a piece on the en-passant victim's square whenever the
   * occupancy has it: the capturing pawn's step does not touch that square.
   */
  lemma EnpassantVictimFound(b: seq<bv64>, occ: seq<bv64>, turn: Colors.Color, from: Square, to: Square)
    requires |b| == 12 && |occ| == 3 && Consistent(b, occ) && to in PawnTargets(from, turn)
    ensures var f := MoveFields(from, to, PawnOf(turn), Empty, Empty, false, true);
            VictimFound(Promoted(Moved(b, f), f), occ, EpVictim(to, turn))
  {
    var f := MoveFields(from, to, PawnOf(turn), Empty, Empty, false, true);
    var v := EpVictim(to, turn);
    VictimOffPath(from, to, turn);
    var after := Moved(b, f);
    forall i | 0 <= i < 12 ensures Bit(after[i], v) == Bit(b[i], v) {
      MovedElsewhere(b, f, v, i);
    }
    FirstHolderAgrees(after, b, 0, 6, v);
    FirstHolderAgrees(after, b, 6, 12, v);
    assert PieceOn(after, occ, v) == PieceOn(b, occ, v);
    if Bit(occ[2], v) {
      InSquares(occ[2], v);
      PieceOnOccupied(b, occ, v);
    }
  }

  /**
   * Every generated move meets make_move's precondition when the
   * occupancies agree with the boards: it moves a piece, and an en-passant
   * capture finds its victim.
   */
  lemma GeneratedCanMake(b: seq<bv64>, occ: seq<bv64>, turn: Colors.Color, enpassant: Option<Square>,
                         c: CastlingRights, m: MoveFields)
    requires |b| == 12 && |occ| == 3 && Consistent(b, occ)
    requires m in PseudoLegal(b, occ, turn, enpassant, c)
    ensures CanMake(b, occ, m, turn)
  {
    InRange(m.from, m.to);
    if m in PawnMoves(b, occ, turn, enpassant) {
      PawnMovesMembers(b, occ, turn, enpassant, m);
      PawnMoveKinds(b, occ, turn, enpassant, m.from, m);
      if m.enpassant {
        EnpassantVictimFound(b, occ, turn, m.from, m.to);
      }
    } else if m in KindMoves(b, occ, turn, Knight) {
      KindMovesSound(b, occ, turn, Knight, m);
    } else if m in KindMoves(b, occ, turn, Bishop) {
      KindMovesSound(b, occ, turn, Bishop, m);
    } else if m in KindMoves(b, occ, turn, Rook) {
      KindMovesSound(b, occ, turn, Rook, m);
    } else if m in KindMoves(b, occ, turn, Queen) {
      KindMovesSound(b, occ, turn, Queen, m);
    } else if m in KindMoves(b, occ, turn, King) {
      KindMovesSound(b, occ, turn, King, m);
    } else {
      CastleMovesShape(b, occ, turn, c, m);
    }
  }

  /** With occupancies derived from the boards, every generated move can be made. */
  lemma PseudoLegalCanMake(b: seq<bv64>, turn: Colors.Color, enpassant: Option<Square>, c: CastlingRights)
    requires |b| == 12
    ensures forall m | m in PseudoLegal(b, OccupanciesOf(b), turn, enpassant, c) :: CanMake(b, OccupanciesOf(b), m, turn)
  {
    OccupanciesConsistent(b);
    forall m | m in PseudoLegal(b, OccupanciesOf(b), turn, enpassant, c) ensures CanMake(b, OccupanciesOf(b), m, turn) {
      GeneratedCanMake(b, OccupanciesOf(b), turn, enpassant, c, m);
    }
  }

  // ---------------------------------------------------------------------
  // The legality filter
  // ---------------------------------------------------------------------

  /**
   * A legal move: after it the side that made it is not in check.  An
   * en-passant capture make_move refuses is never legal, since it is
   * refused exactly when it leaves the mover in check.
   */
  ghost predicate Legal(b: seq<bv64>, turn: Colors.Color, f: MoveFields)
    requires |b| == 12 && CanMake(b, OccupanciesOf(b), f, turn)
  {
    var after := BoardsAfter(b, OccupanciesOf(b), f, turn);
    !InCheck(after, turn, OccupanciesOf(after)[2])
  }

  /**
   * What generate_legal_moves as written keeps: after make_move the side
   * to move is the opponent, so `is_in_check` asks whether the opponent is
   * in check.  When make_move refuses the move the position is back as it
   * was and the mover is asked about.
   */
  ghost predicate KeptAsWritten(b: seq<bv64>, turn: Colors.Color, f: MoveFields)
    requires |b| == 12 && CanMake(b, OccupanciesOf(b), f, turn)
  {
    var occ := OccupanciesOf(b);
    if EnpassantRefused(b, occ, f, turn) then !InCheck(b, turn, occ[2])
    else
      var after := BoardsAfter(b, occ, f, turn);
      !InCheck(after, Colors.Not(turn), OccupanciesOf(after)[2])
  }

  /** A side whose only piece is a king on k attacks s exactly when k is a king target of s. */
  lemma LoneKingAttacks(tp: set<Square>, tn: set<Square>, tb: set<Square>, tr: set<Square>, tk: set<Square>,
                        king: bv64, k: Square)
    requires Squares(king) == {k} && k !in tk
    ensures AttackSet(tp, tn, tb, tr, tk, 0, 0, 0, 0, 0, king) == {}
  {
    SquaresZero();
  }

  /** With e2, d2, c2 and b2 empty, the a2 square lies on the rook lines from e2. */
  lemma SecondRankOpen(occupancy: bv64)
    requires !Bit(occupancy, 51) && !Bit(occupancy, 50) && !Bit(occupancy, 49)
    ensures 48 in RookAttacks(52, occupancy)
  {
    assert 48 in Rays.RaySet(49, Rays.West, occupancy);
    assert 48 in Rays.RaySet(50, Rays.West, occupancy);
    assert 48 in Rays.RaySet(51, Rays.West, occupancy);
    assert 48 in Rays.RaySet(52, Rays.West, occupancy);
  }

  /** A side whose pieces are a lone king on k, off the king targets of s, does not attack s. */
  lemma KingUnattacked(b: seq<bv64>, c: Colors.Color, s: Square, occupancy: bv64, king: bv64, k: Square)
    requires |b| == 12 && SideOffset(c) == 0 && b[0] == 0 && b[1] == 0 && b[2] == 0 && b[3] == 0 && b[4] == 0
    requires b[5] == king && Squares(king) == {k} && k !in KingTargets(s)
    ensures !Attacked(b, c, s, occupancy)
  {
    LoneKingAttacks(PawnTargets(s, Colors.Not(c)), KnightTargets(s), BishopAttacks(s, occupancy),
                    RookAttacks(s, occupancy), KingTargets(s), king, k);
    AttackersOfColor(b, c, s, occupancy);
  }

  /**
   * With the white king on e1, a black rook on a2 and the black king on e8,
   * the king's step to e2 walks into the rook's line.  The filter as
   * written keeps it, because after the step it asks whether black is in
   * check; the move is not legal.
   */
  lemma KingWalksIntoRook()
    ensures var b: seq<bv64> := [0, 0, 0, 0, 0, 1 << 60, 0, 0, 0, 1 << 48, 0, 1 << 4];
            var f := MoveFields(60, 52, WhiteKing, Empty, Empty, false, false);
            CanMake(b, OccupanciesOf(b), f, Colors.White)
            && KeptAsWritten(b, Colors.White, f) && !Legal(b, Colors.White, f)
  {
    var b: seq<bv64> := [0, 0, 0, 0, 0, 1 << 60, 0, 0, 0, 1 << 48, 0, 1 << 4];
    var f := MoveFields(60, 52, WhiteKing, Empty, Empty, false, false);
    var occ := OccupanciesOf(b);
    assert CanMake(b, occ, f, Colors.White);
    var after := BoardsAfter(b, occ, f, Colors.White);
    assert after == [0, 0, 0, 0, 0, 1 << 52, 0, 0, 0, 1 << 48, 0, 1 << 4];
    var both := OccupanciesOf(after)[2];
    assert both == (1 << 52) | (1 << 48) | (1 << 4);
    SquaresSingle(52);
    SquaresSingle(48);
    SquaresSingle(4);
    SecondRankOpen(both);
    RookAttacker(after, Colors.Black, 52, both, 48);
    KingOn(after, Colors.White, both, 52);
    KingUnattacked(after, Colors.White, 4, both, 1 << 52, 52);
    KingOn(after, Colors.Black, both, 4);
  }

  /** The legal moves among ms, in their order. */
  ghost function LegalAmong(b: seq<bv64>, turn: Colors.Color, ms: seq<MoveFields>): seq<MoveFields>
    requires |b| == 12 && forall m | m in ms :: CanMake(b, OccupanciesOf(b), m, turn)
    decreases |ms|
  {
    if ms == [] then []
    else
      var last := ms[|ms| - 1];
      var init := ms[..|ms| - 1];
      assert forall m | m in init :: m in ms;
      LegalAmong(b, turn, init) + (if Legal(b, turn, last) then [last] else [])
  }

  /** The intended result of generate_legal_moves: the legal pseudo-legal moves, in generation order. */
  ghost function LegalMoves(b: seq<bv64>, turn: Colors.Color, enpassant: Option<Square>, c: CastlingRights): seq<MoveFields>
    requires |b| == 12
  {
    PseudoLegalCanMake(b, turn, enpassant, c);
    LegalAmong(b, turn, PseudoLegal(b, OccupanciesOf(b), turn, enpassant, c))
  }

  /** The filter keeps exactly the legal moves of its input. */
  lemma {:induction false} LegalAmongMembers(b: seq<bv64>, turn: Colors.Color, ms: seq<MoveFields>, m: MoveFields)
    requires |b| == 12 && forall x | x in ms :: CanMake(b, OccupanciesOf(b), x, turn)
    ensures m in LegalAmong(b, turn, ms) <==> m in ms && Legal(b, turn, m)
    decreases |ms|
  {
    if ms != [] {
      var init := ms[..|ms| - 1];
      assert ms == init + [ms[|ms| - 1]];
      LegalAmongMembers(b, turn, init, m);
    }
  }

  /** A move is listed as legal exactly when it is generated and leaves the mover out of check. */
  lemma LegalMovesMembers(b: seq<bv64>, turn: Colors.Color, enpassant: Option<Square>, c: CastlingRights, m: MoveFields)
    requires |b| == 12
    ensures forall x | x in PseudoLegal(b, OccupanciesOf(b), turn, enpassant, c) :: CanMake(b, OccupanciesOf(b), x, turn)
    ensures m in LegalMoves(b, turn, enpassant, c) <==>
            m in PseudoLegal(b, OccupanciesOf(b), turn, enpassant, c) && Legal(b, turn, m)
  {
    PseudoLegalCanMake(b, turn, enpassant, c);
    LegalAmongMembers(b, turn, PseudoLegal(b, OccupanciesOf(b), turn, enpassant, c), m);
  }

  /** A legal move is one make_move plays. */
  lemma LegalIsMade(b: seq<bv64>, turn: Colors.Color, f: MoveFields)
    requires |b| == 12 && CanMake(b, OccupanciesOf(b), f, turn) && Legal(b, turn, f)
    ensures !EnpassantRefused(b, OccupanciesOf(b), f, turn)
  {
  }

  /** `is_in_check` asked about the given side rather than the side to move. */
  method SideInCheck(p: Position, side: Colors.Color) returns (check: bool)
    requires |p.bitboards| == 12 && |p.occupancies| == 3
    ensures check <==> InCheck(p.bitboards, side, p.occupancies[2])
  {
    var kings := p.bitboards[SideOffset(side) + 5];
    var kingSquare := GetLsb(kings);
    if kingSquare >= 64 {
      LsbOrNone(kings);
      NoKingInCheck(p.bitboards, side, p.occupancies[2]);
      return true;
    }
    var square := kingSquare as Square;
    KingSquareCheck(p.bitboards, side, p.occupancies[2], kings, square);
    check := p.IsSquareAttacked(square, Colors.Not(side));
  }

  /** Two entries that differ at most in their full-move number. */
  ghost predicate SameBut(e: HistoryEntry, e0: HistoryEntry) {
    e.(fullmoveNumber := 0) == e0.(fullmoveNumber := 0)
  }

  /**
   * make_move on a generated move, in the terms the legality filter and
   * perft need: whether it was played, the boards and side it leaves, and
   * the history slot it writes (a copy of the position but for the
   * full-move number).  A refused move leaves the position as it was but
   * for the full-move number.
   */
  method MakeGenerated(p: Position, f: MoveFields) returns (made: bool)
    requires p.Valid() && p.depth < |p.positionStack|
    requires CanMake(p.bitboards, OccupanciesOf(p.bitboards), f, p.turn)
    modifies p
    ensures p.Valid() && |p.positionStack| == old(|p.positionStack|)
    ensures p.positionStack == old(p.positionStack)[old(p.depth) := p.positionStack[old(p.depth)]]
    ensures p.positionStack[..old(p.depth)] == old(p.positionStack)[..old(p.depth)]
    ensures SameBut(p.positionStack[old(p.depth)], old(p.ToHistoryEntry()))
    ensures made <==> !EnpassantRefused(old(p.bitboards), OccupanciesOf(old(p.bitboards)), f, old(p.turn))
    ensures made ==> p.depth == old(p.depth) + 1 && p.turn == Colors.Not(old(p.turn))
                     && p.bitboards == BoardsAfter(old(p.bitboards), OccupanciesOf(old(p.bitboards)), f, old(p.turn))
                     && p.enpassant == EnpassantAfter(f) && p.castling == RightsAfter(old(p.castling), f)
    ensures !made ==> p.depth == old(p.depth) && SameBut(p.ToHistoryEntry(), old(p.ToHistoryEntry()))
    ensures Reached(old(p.bitboards), old(p.turn), old(p.castling), f, made, p.bitboards, p.turn, p.enpassant, p.castling)
  {
    made := p.MakeMove(Encode(f), false);
  }

  /** What make_move did with move f from boards b: refused it, or reached b1 with the given state. */
  ghost predicate Reached(b: seq<bv64>, turn: Colors.Color, c: CastlingRights, f: MoveFields, made: bool,
                          b1: seq<bv64>, t1: Colors.Color, ep1: Option<Square>, c1: CastlingRights)
  {
    |b| == 12 && CanMake(b, OccupanciesOf(b), f, turn)
    && (made <==> !EnpassantRefused(b, OccupanciesOf(b), f, turn))
    && (made ==> b1 == BoardsAfter(b, OccupanciesOf(b), f, turn) && t1 == Colors.Not(turn)
                 && ep1 == EnpassantAfter(f) && c1 == RightsAfter(c, f))
  }

  /**
   * A position (entry, depth, history) that is the starting one but for
   * the full-move number and the history slot at the starting depth.
   */
  ghost predicate Kept(e: HistoryEntry, d: nat, stack: seq<HistoryEntry>, e0: HistoryEntry, d0: nat, stack0: seq<HistoryEntry>) {
    d == d0 && SameBut(e, e0) && |stack| == |stack0| && forall j | 0 <= j < |stack0| && j != d0 :: stack[j] == stack0[j]
  }

  lemma KeptTrans(e2: HistoryEntry, d2: nat, s2: seq<HistoryEntry>, e1: HistoryEntry, d1: nat, s1: seq<HistoryEntry>,
                  e0: HistoryEntry, d0: nat, s0: seq<HistoryEntry>)
    requires Kept(e2, d2, s2, e1, d1, s1) && Kept(e1, d1, s1, e0, d0, s0)
    ensures Kept(e2, d2, s2, e0, d0, s0)
  {
  }

  /**
   * One round of generate_legal_moves as evidently intended: the move is
   * made, judged by whether the side that moved is in check, and taken
   * back when it was made.  The position comes back but for its
   * full-move number, which make_move does not save, and only the history
   * slot at the current depth is written.
   */
  method TryLegal(p: Position, f: MoveFields) returns (legal: bool)
    requires p.Valid() && p.depth < |p.positionStack|
    requires CanMake(p.bitboards, OccupanciesOf(p.bitboards), f, p.turn)
    modifies p
    ensures legal == Legal(old(p.bitboards), old(p.turn), f)
    ensures p.Valid() && Kept(p.ToHistoryEntry(), p.depth, p.positionStack, old(p.ToHistoryEntry()), old(p.depth), old(p.positionStack))
  {
    ghost var e0, d0, b0, turn0 := p.ToHistoryEntry(), p.depth, p.bitboards, p.turn;
    var made := MakeGenerated(p, f);
    if made {
      legal := JudgeAndUndo(p, f, b0, turn0, e0, d0);
    } else {
      legal := false;
    }
  }

  /**
   * The second half of a round of the filter, after make_move played the
   * move: the side that moved is asked about, and the move is taken back.
   */
  method JudgeAndUndo(p: Position, f: MoveFields, ghost b0: seq<bv64>, ghost turn0: Colors.Color,
                      ghost e0: HistoryEntry, ghost d0: nat) returns (legal: bool)
    requires |b0| == 12 && CanMake(b0, OccupanciesOf(b0), f, turn0)
    requires p.Valid() && p.depth == d0 + 1 && d0 < |p.positionStack| && SameBut(p.positionStack[d0], e0)
    requires p.bitboards == BoardsAfter(b0, OccupanciesOf(b0), f, turn0) && p.turn == Colors.Not(turn0)
    modifies p
    ensures legal == Legal(b0, turn0, f)
    ensures p.Valid() && p.depth == d0 && SameBut(p.ToHistoryEntry(), e0) && p.positionStack == old(p.positionStack)
  {
    var check := SideInCheck(p, Colors.Not(p.turn));
    legal := !check;
    ghost var slot := p.positionStack[d0];
    p.UnmakeMove();
    assert p.ToHistoryEntry() == slot;
  }

  /**
   * The filter's position is the one it started from, but for the
   * full-move number and the history slot at its depth.
   */
  ghost predicate Restored(p: Position, e0: HistoryEntry, d0: nat, stack0: seq<HistoryEntry>)
    reads p
  {
    p.Valid() && Kept(p.ToHistoryEntry(), p.depth, p.positionStack, e0, d0, stack0)
  }

  /** Move i of the list is tried on the position, which comes back. */
  method TryAt(p: Position, b: seq<bv64>, turn: Colors.Color, pseudo: seq<MoveFields>, i: nat,
               ghost e0: HistoryEntry, ghost d0: nat, ghost stack0: seq<HistoryEntry>)
    returns (legal: bool)
    requires i < |pseudo| && |b| == 12 && CanMake(b, OccupanciesOf(b), pseudo[i], turn)
    requires Restored(p, e0, d0, stack0) && d0 < |stack0| && p.bitboards == b && p.turn == turn
    modifies p
    ensures Restored(p, e0, d0, stack0) && p.bitboards == b && p.turn == turn
    ensures legal == Legal(b, turn, pseudo[i])
  {
    ghost var e1, s1 := p.ToHistoryEntry(), p.positionStack;
    legal := TryLegal(p, pseudo[i]);
    KeptTrans(p.ToHistoryEntry(), p.depth, p.positionStack, e1, d0, s1, e0, d0, stack0);
  }

  /** flags[k] says whether move k of ms is legal. */
  ghost predicate FlagsRight(b: seq<bv64>, turn: Colors.Color, ms: seq<MoveFields>, flags: seq<bool>)
    requires |b| == 12 && forall m | m in ms :: CanMake(b, OccupanciesOf(b), m, turn)
    decreases |ms|
  {
    |flags| == |ms| && (ms == [] || (
      var init := ms[..|ms| - 1];
      assert forall m | m in init :: m in ms;
      FlagsRight(b, turn, init, flags[..|ms| - 1]) && flags[|ms| - 1] == Legal(b, turn, ms[|ms| - 1])))
  }

  /** Recording the verdict on move i extends the flags and the selection by one. */
  lemma FlagsStep(b: seq<bv64>, turn: Colors.Color, pseudo: seq<MoveFields>, i: nat, flags: seq<bool>, legal: bool)
    requires i < |pseudo| && |b| == 12 && forall m | m in pseudo :: CanMake(b, OccupanciesOf(b), m, turn)
    requires FlagsRight(b, turn, pseudo[..i], flags) && legal == Legal(b, turn, pseudo[i])
    ensures FlagsRight(b, turn, pseudo[..i + 1], flags + [legal])
    ensures Select(pseudo[..i + 1], flags + [legal]) == Select(pseudo[..i], flags) + (if legal then [pseudo[i]] else [])
  {
    var ms := pseudo[..i + 1];
    assert ms[..|ms| - 1] == pseudo[..i] && ms[|ms| - 1] == pseudo[i];
    FlagsExtend(b, turn, ms, flags, legal);
    SelectExtend(ms, flags, legal);
  }

  /** Correct flags for all but the last move, and the last move's verdict, are correct flags. */
  lemma FlagsExtend(b: seq<bv64>, turn: Colors.Color, ms: seq<MoveFields>, flags: seq<bool>, legal: bool)
    requires ms != [] && |b| == 12 && forall m | m in ms :: CanMake(b, OccupanciesOf(b), m, turn)
    requires forall m | m in ms[..|ms| - 1] :: CanMake(b, OccupanciesOf(b), m, turn)
    requires FlagsRight(b, turn, ms[..|ms| - 1], flags) && legal == Legal(b, turn, ms[|ms| - 1])
    ensures FlagsRight(b, turn, ms, flags + [legal])
  {
    assert (flags + [legal])[..|ms| - 1] == flags;
  }

  /** Selecting with one more flag selects one more move when the flag is set. */
  lemma SelectExtend(ms: seq<MoveFields>, flags: seq<bool>, legal: bool)
    requires ms != [] && |flags| == |ms| - 1
    ensures Select(ms, flags + [legal]) == Select(ms[..|ms| - 1], flags) + (if legal then [ms[|ms| - 1]] else [])
  {
    assert (flags + [legal])[..|ms| - 1] == flags;
  }

  /** The moves of ms whose flag is set, in order. */
  function Select(ms: seq<MoveFields>, flags: seq<bool>): (r: seq<MoveFields>)
    requires |flags| == |ms|
    decreases |ms|
  {
    if ms == [] then []
    else Select(ms[..|ms| - 1], flags[..|ms| - 1]) + (if flags[|ms| - 1] then [ms[|ms| - 1]] else [])
  }

  /** One iteration of generate_legal_moves' loop: move i is tried and its verdict recorded. */
  method FilterStep(p: Position, b: seq<bv64>, turn: Colors.Color, pseudo: seq<MoveFields>, i: nat,
                    kept: seq<MoveFields>, ghost flags: seq<bool>,
                    ghost e0: HistoryEntry, ghost d0: nat, ghost stack0: seq<HistoryEntry>)
    returns (moves: seq<MoveFields>, ghost flags': seq<bool>)
    requires i < |pseudo| && |b| == 12 && forall m | m in pseudo :: CanMake(b, OccupanciesOf(b), m, turn)
    requires Restored(p, e0, d0, stack0) && d0 < |stack0| && p.bitboards == b && p.turn == turn
    requires FlagsRight(b, turn, pseudo[..i], flags) && kept == Select(pseudo[..i], flags)
    modifies p
    ensures Restored(p, e0, d0, stack0) && p.bitboards == b && p.turn == turn
    ensures FlagsRight(b, turn, pseudo[..i + 1], flags') && moves == Select(pseudo[..i + 1], flags')
  {
    assert pseudo[i] in pseudo;
    var legal := TryAt(p, b, turn, pseudo, i, e0, d0, stack0);
    FlagsStep(b, turn, pseudo, i, flags, legal);
    flags' := flags + [legal];
    moves := if legal then kept + [pseudo[i]] else kept;
  }

  /** Selecting by correct flags is the legality filter. */
  lemma {:induction false} SelectLegal(b: seq<bv64>, turn: Colors.Color, ms: seq<MoveFields>, flags: seq<bool>)
    requires |b| == 12 && forall m | m in ms :: CanMake(b, OccupanciesOf(b), m, turn)
    requires FlagsRight(b, turn, ms, flags)
    ensures Select(ms, flags) == LegalAmong(b, turn, ms)
    decreases |ms|
  {
    if ms != [] {
      var init := ms[..|ms| - 1];
      assert forall m | m in init :: m in ms;
      SelectLegal(b, turn, init, flags[..|ms| - 1]);
    }
  }

  /** The loop of generate_legal_moves: the legal moves of the list, in order. */
  method FilterLegal(p: Position, pseudo: seq<MoveFields>) returns (moves: seq<MoveFields>)
    requires p.Valid() && p.depth < |p.positionStack|
    requires forall m | m in pseudo :: CanMake(p.bitboards, OccupanciesOf(p.bitboards), m, p.turn)
    modifies p
    ensures moves == LegalAmong(old(p.bitboards), old(p.turn), pseudo)
    ensures Restored(p, old(p.ToHistoryEntry()), old(p.depth), old(p.positionStack))
  {
    ghost var e0, d0, stack0 := p.ToHistoryEntry(), p.depth, p.positionStack;
    var b, turn := p.bitboards, p.turn;
    moves := [];
    ghost var flags: seq<bool> := [];
    var i := 0;
    while i < |pseudo|
      invariant 0 <= i <= |pseudo|
      invariant Restored(p, e0, d0, stack0) && p.bitboards == b && p.turn == turn
      invariant FlagsRight(b, turn, pseudo[..i], flags) && moves == Select(pseudo[..i], flags)
    {
      moves, flags := FilterStep(p, b, turn, pseudo, i, moves, flags, e0, d0, stack0);
      i := i + 1;
    }
    assert pseudo[..i] == pseudo;
    SelectLegal(b, turn, pseudo, flags);
  }

  /** generate_legal_moves as evidently intended: the generated moves that are legal, in order. */
  method GenerateLegalMoves(p: Position) returns (moves: seq<MoveFields>)
    requires p.Valid() && p.depth < |p.positionStack|
    modifies p
    ensures moves == LegalMoves(old(p.bitboards), old(p.turn), old(p.enpassant), old(p.castling))
    ensures Restored(p, old(p.ToHistoryEntry()), old(p.depth), old(p.positionStack))
  {
    var pseudo := GenerateMoves(p);
    PseudoLegalCanMake(p.bitboards, p.turn, p.enpassant, p.castling);
    moves := FilterLegal(p, pseudo);
  }

  // ---------------------------------------------------------------------
  // perft
  // ---------------------------------------------------------------------

  /**
   * perft's count below a position: 1 at depth 0, otherwise the counts one
   * ply deeper summed over the generated moves, a move make_move refuses
   * adding nothing.  Legality is not filtered: perft counts the moves
   * make_move plays.
   *
   * The count is spread over small definitions (PerftCount, PerftPly,
   * PerftMoves; PerftOf, PerftLayer, PerftMove) of which PerftPly and
   * PerftLayer only pass their arguments on: the verifier unfolds a
   * recursive definition only a ply or two at a time, and these keep a
   * proof that mentions one count from unfolding the move generator and the
   * boards of the position below it.
   */
  ghost function PerftCount(b: seq<bv64>, turn: Colors.Color, enpassant: Option<Square>, c: CastlingRights,
                            depth: nat): nat
    requires |b| == 12
    decreases depth, 0, 0
  {
    if depth == 0 then 1 else PerftPly(b, turn, enpassant, c, depth - 1)
  }

  /** The count below a position, one ply shallower than PerftCount's. */
  ghost function PerftPly(b: seq<bv64>, turn: Colors.Color, enpassant: Option<Square>, c: CastlingRights,
                            depth: nat): nat
    requires |b| == 12
    decreases depth, 2, 0
  {
    PerftMoves(b, turn, enpassant, c, depth)
  }

  /** The counts below the moves generated in a position, summed. */
  ghost function PerftMoves(b: seq<bv64>, turn: Colors.Color, enpassant: Option<Square>, c: CastlingRights,
                            depth: nat): nat
    requires |b| == 12
    decreases depth, 1, 0
  {
    PerftSum(b, turn, enpassant, c, PseudoLegal(b, OccupanciesOf(b), turn, enpassant, c), depth)
  }

  /** The counts at `depth` below the positions the moves of ms lead to. */
  ghost function PerftSum(b: seq<bv64>, turn: Colors.Color, enpassant: Option<Square>, c: CastlingRights,
                          ms: seq<MoveFields>, depth: nat): nat
    requires |b| == 12
    decreases depth, 0, |ms| + 4
  {
    if ms == [] then 0
    else
      var init, last := ms[..|ms| - 1], ms[|ms| - 1];
      PerftSum(b, turn, enpassant, c, init, depth) + PerftOf(b, turn, enpassant, c, last, depth)
  }

  /** The count at `depth` below the position one move leads to, or 0 when make_move refuses it. */
  ghost function PerftOf(b: seq<bv64>, turn: Colors.Color, enpassant: Option<Square>, c: CastlingRights,
                         f: MoveFields, depth: nat): nat
    requires |b| == 12
    decreases depth, 0, 3
  {
    PerftLayer(b, turn, enpassant, c, f, depth)
  }

  /** PerftOf's value. */
  ghost function PerftLayer(b: seq<bv64>, turn: Colors.Color, enpassant: Option<Square>, c: CastlingRights,
                         f: MoveFields, depth: nat): nat
    requires |b| == 12
    decreases depth, 0, 2
  {
    PerftMove(b, turn, enpassant, c, f, depth)
  }

  /** PerftOf's value, spelled out. */
  ghost function PerftMove(b: seq<bv64>, turn: Colors.Color, enpassant: Option<Square>, c: CastlingRights,
                         f: MoveFields, depth: nat): nat
    requires |b| == 12
    decreases depth, 0, 1
  {
    if !CanMake(b, OccupanciesOf(b), f, turn) then 0
    else if EnpassantRefused(b, OccupanciesOf(b), f, turn) then 0
    else PerftCount(BoardsAfter(b, OccupanciesOf(b), f, turn), Colors.Not(turn), EnpassantAfter(f), RightsAfter(c, f), depth)
  }

  /** Below depth 0, the count is the sum over the generated moves. */
  lemma PerftCountUnfold(b: seq<bv64>, turn: Colors.Color, enpassant: Option<Square>, c: CastlingRights, depth: nat)
    requires |b| == 12 && 0 < depth
    ensures PerftCount(b, turn, enpassant, c, depth)
            == PerftSum(b, turn, enpassant, c, PseudoLegal(b, OccupanciesOf(b), turn, enpassant, c), depth - 1)
  {
    assert PerftPly(b, turn, enpassant, c, depth - 1) == PerftMoves(b, turn, enpassant, c, depth - 1);
  }

  /** The count below one move, spelled out. */
  lemma PerftOfUnfold(b: seq<bv64>, turn: Colors.Color, enpassant: Option<Square>, c: CastlingRights,
                      f: MoveFields, depth: nat)
    requires |b| == 12 && CanMake(b, OccupanciesOf(b), f, turn)
    ensures EnpassantRefused(b, OccupanciesOf(b), f, turn) ==> PerftOf(b, turn, enpassant, c, f, depth) == 0
    ensures !EnpassantRefused(b, OccupanciesOf(b), f, turn) ==>
      PerftOf(b, turn, enpassant, c, f, depth)
      == PerftCount(BoardsAfter(b, OccupanciesOf(b), f, turn), Colors.Not(turn), EnpassantAfter(f), RightsAfter(c, f), depth)
  {
    assert PerftOf(b, turn, enpassant, c, f, depth) == PerftLayer(b, turn, enpassant, c, f, depth);
    assert PerftLayer(b, turn, enpassant, c, f, depth) == PerftMove(b, turn, enpassant, c, f, depth);
  }

  /** The count below one move in terms of what make_move reached: 0 when it refused the move. */
  lemma PerftOfMade(b: seq<bv64>, turn: Colors.Color, enpassant: Option<Square>, c: CastlingRights,
                    f: MoveFields, depth: nat, made: bool,
                    b1: seq<bv64>, t1: Colors.Color, ep1: Option<Square>, c1: CastlingRights)
    requires Reached(b, turn, c, f, made, b1, t1, ep1, c1)
    ensures made ==> |b1| == 12 && PerftOf(b, turn, enpassant, c, f, depth) == PerftCount(b1, t1, ep1, c1, depth)
    ensures !made ==> PerftOf(b, turn, enpassant, c, f, depth) == 0
  {
    PerftOfUnfold(b, turn, enpassant, c, f, depth);
  }

  /** One ply deeper, every move make_move plays counts once: perft(1) is at most the number of generated moves. */
  lemma {:induction false} PerftSumOnePly(b: seq<bv64>, turn: Colors.Color, enpassant: Option<Square>, c: CastlingRights,
                                          ms: seq<MoveFields>)
    requires |b| == 12 && forall m | m in ms :: CanMake(b, OccupanciesOf(b), m, turn)
    ensures PerftSum(b, turn, enpassant, c, ms, 0) <= |ms|
    ensures (forall m | m in ms :: !m.enpassant) ==> PerftSum(b, turn, enpassant, c, ms, 0) == |ms|
    decreases |ms|
  {
    if ms != [] {
      var init := ms[..|ms| - 1];
      assert forall m | m in init :: m in ms;
      PerftSumOnePly(b, turn, enpassant, c, init);
    }
  }

  /**
   * perft(1) counts the generated moves make_move plays: all of them when
   * none is an en-passant capture.
   */
  lemma PerftOnePly(b: seq<bv64>, turn: Colors.Color, enpassant: Option<Square>, c: CastlingRights)
    requires |b| == 12
    ensures PerftCount(b, turn, enpassant, c, 1) <= |PseudoLegal(b, OccupanciesOf(b), turn, enpassant, c)|
    ensures (forall m | m in PseudoLegal(b, OccupanciesOf(b), turn, enpassant, c) :: !m.enpassant) ==>
              PerftCount(b, turn, enpassant, c, 1) == |PseudoLegal(b, OccupanciesOf(b), turn, enpassant, c)|
  {
    PseudoLegalCanMake(b, turn, enpassant, c);
    PerftSumOnePly(b, turn, enpassant, c, PseudoLegal(b, OccupanciesOf(b), turn, enpassant, c));
  }

  /**
   * A position perft hands back: the one it was given but for the
   * full-move number, with the history below its depth untouched (slots at
   * and above it hold the positions searched).
   */
  ghost predicate Returned(p: Position, e0: HistoryEntry, d0: nat, stack0: seq<HistoryEntry>)
    reads p
  {
    p.Valid() && p.depth == d0 && SameBut(p.ToHistoryEntry(), e0) && |p.positionStack| == |stack0|
    && d0 <= |stack0| && p.positionStack[..d0] == stack0[..d0]
  }

  /** counts[k] is the count below move k of ms. */
  ghost predicate CountsRight(b: seq<bv64>, turn: Colors.Color, enpassant: Option<Square>, c: CastlingRights,
                              ms: seq<MoveFields>, counts: seq<nat>, depth: nat)
    requires |b| == 12 && forall m | m in ms :: CanMake(b, OccupanciesOf(b), m, turn)
    decreases |ms|
  {
    |counts| == |ms| && (ms == [] || (
      var init := ms[..|ms| - 1];
      assert forall m | m in init :: m in ms;
      CountsRight(b, turn, enpassant, c, init, counts[..|ms| - 1], depth)
      && counts[|ms| - 1] == PerftOf(b, turn, enpassant, c, ms[|ms| - 1], depth)))
  }

  /** The sum of a list of counts. */
  function Total(counts: seq<nat>): nat {
    if counts == [] then 0 else Total(counts[..|counts| - 1]) + counts[|counts| - 1]
  }

  /** Recording the count below move i extends the counts and their total. */
  lemma CountsStep(b: seq<bv64>, turn: Colors.Color, enpassant: Option<Square>, c: CastlingRights,
                   ms: seq<MoveFields>, i: nat, counts: seq<nat>, n: nat, depth: nat)
    requires i < |ms| && |b| == 12 && forall m | m in ms :: CanMake(b, OccupanciesOf(b), m, turn)
    requires CountsRight(b, turn, enpassant, c, ms[..i], counts, depth) && n == PerftOf(b, turn, enpassant, c, ms[i], depth)
    ensures CountsRight(b, turn, enpassant, c, ms[..i + 1], counts + [n], depth)
    ensures Total(counts + [n]) == Total(counts) + n
  {
    assert ms[..i + 1][..i] == ms[..i];
    assert (counts + [n])[..|counts|] == counts;
  }

  /** The total of correct counts is the perft sum. */
  lemma {:induction false} CountsTotal(b: seq<bv64>, turn: Colors.Color, enpassant: Option<Square>, c: CastlingRights,
                                       ms: seq<MoveFields>, counts: seq<nat>, depth: nat)
    requires |b| == 12 && forall m | m in ms :: CanMake(b, OccupanciesOf(b), m, turn)
    requires CountsRight(b, turn, enpassant, c, ms, counts, depth)
    ensures Total(counts) == PerftSum(b, turn, enpassant, c, ms, depth)
    decreases |ms|
  {
    if ms != [] {
      var init := ms[..|ms| - 1];
      assert forall m | m in init :: m in ms;
      CountsTotal(b, turn, enpassant, c, init, counts[..|ms| - 1], depth);
    }
  }

  /** `perft`: the node count at `depth`, with every move made taken back. */
  method Perft(p: Position, depth: nat) returns (nodes: nat)
    requires p.Valid() && p.depth + depth <= |p.positionStack|
    modifies p
    ensures nodes == PerftCount(old(p.bitboards), old(p.turn), old(p.enpassant), old(p.castling), depth)
    ensures Returned(p, old(p.ToHistoryEntry()), old(p.depth), old(p.positionStack))
    decreases depth, 6
  {
    if depth == 0 {
      return 1;
    }
    var moves := GenerateMoves(p);
    PseudoLegalCanMake(p.bitboards, p.turn, p.enpassant, p.castling);
    PerftCountUnfold(p.bitboards, p.turn, p.enpassant, p.castling, depth);
    nodes := PerftLoop(p, depth, moves);
  }

  /** perft's loop over the generated moves: the counts below them, summed. */
  method PerftLoop(p: Position, depth: nat, moves: seq<MoveFields>) returns (nodes: nat)
    requires 0 < depth && p.Valid() && p.depth + depth <= |p.positionStack|
    requires forall m | m in moves :: CanMake(p.bitboards, OccupanciesOf(p.bitboards), m, p.turn)
    modifies p
    ensures nodes == PerftSum(old(p.bitboards), old(p.turn), old(p.enpassant), old(p.castling), moves, depth - 1)
    ensures Returned(p, old(p.ToHistoryEntry()), old(p.depth), old(p.positionStack))
    decreases depth, 5
  {
    ghost var e0, d0, stack0 := p.ToHistoryEntry(), p.depth, p.positionStack;
    var b, turn, enpassant, c := p.bitboards, p.turn, p.enpassant, p.castling;
    nodes := 0;
    ghost var counts: seq<nat> := [];
    var i := 0;
    while i < |moves|
      invariant 0 <= i <= |moves|
      invariant Returned(p, e0, d0, stack0)
      invariant p.bitboards == b && p.turn == turn && p.enpassant == enpassant && p.castling == c
      invariant CountsRight(b, turn, enpassant, c, moves[..i], counts, depth - 1) && nodes == Total(counts)
    {
      nodes, counts := PerftStep(p, b, turn, enpassant, c, depth, moves, i, nodes, counts, e0, d0, stack0);
      i := i + 1;
    }
    assert moves[..i] == moves;
    CountsTotal(b, turn, enpassant, c, moves, counts, depth - 1);
  }

  /** One iteration of perft's loop: the count below move i is added. */
  method PerftStep(p: Position, b: seq<bv64>, turn: Colors.Color, enpassant: Option<Square>, c: CastlingRights,
                   depth: nat, moves: seq<MoveFields>, i: nat, acc: nat, ghost counts: seq<nat>,
                   ghost e0: HistoryEntry, ghost d0: nat, ghost stack0: seq<HistoryEntry>)
    returns (nodes: nat, ghost counts': seq<nat>)
    requires 0 < depth && i < |moves| && |b| == 12 && d0 + depth <= |stack0|
    requires forall m | m in moves :: CanMake(b, OccupanciesOf(b), m, turn)
    requires Returned(p, e0, d0, stack0)
    requires p.bitboards == b && p.turn == turn && p.enpassant == enpassant && p.castling == c
    requires CountsRight(b, turn, enpassant, c, moves[..i], counts, depth - 1) && acc == Total(counts)
    modifies p
    ensures Returned(p, e0, d0, stack0)
    ensures p.bitboards == b && p.turn == turn && p.enpassant == enpassant && p.castling == c
    ensures CountsRight(b, turn, enpassant, c, moves[..i + 1], counts', depth - 1) && nodes == Total(counts')
    decreases depth, 4
  {
    assert moves[i] in moves;
    var n := TryPerftAt(p, b, turn, enpassant, c, depth, moves, i, e0, d0, stack0);
    CountsStep(b, turn, enpassant, c, moves, i, counts, n, depth - 1);
    nodes, counts' := acc + n, counts + [n];
  }

  /** Move i of the list is made, counted below and taken back. */
  method TryPerftAt(p: Position, b: seq<bv64>, turn: Colors.Color, enpassant: Option<Square>, c: CastlingRights,
                    depth: nat, moves: seq<MoveFields>, i: nat,
                    ghost e0: HistoryEntry, ghost d0: nat, ghost stack0: seq<HistoryEntry>) returns (n: nat)
    requires 0 < depth && i < |moves| && |b| == 12 && d0 + depth <= |stack0|
    requires CanMake(b, OccupanciesOf(b), moves[i], turn)
    requires Returned(p, e0, d0, stack0)
    requires p.bitboards == b && p.turn == turn && p.enpassant == enpassant && p.castling == c
    modifies p
    ensures Returned(p, e0, d0, stack0)
    ensures p.bitboards == b && p.turn == turn && p.enpassant == enpassant && p.castling == c
    ensures n == PerftOf(b, turn, enpassant, c, moves[i], depth - 1)
    decreases depth, 3
  {
    n := TryPerft(p, depth, moves[i]);
  }

  /** make_move on one move, perft one ply shallower when it was played, and unmake_move. */
  method TryPerft(p: Position, depth: nat, f: MoveFields) returns (n: nat)
    requires 0 < depth && p.Valid() && p.depth + depth <= |p.positionStack|
    requires CanMake(p.bitboards, OccupanciesOf(p.bitboards), f, p.turn)
    modifies p
    ensures n == PerftOf(old(p.bitboards), old(p.turn), old(p.enpassant), old(p.castling), f, depth - 1)
    ensures Returned(p, old(p.ToHistoryEntry()), old(p.depth), old(p.positionStack))
    decreases depth, 2
  {
    ghost var e0, d0, stack0 := p.ToHistoryEntry(), p.depth, p.positionStack;
    ghost var b0, t0, ep0, c0 := p.bitboards, p.turn, p.enpassant, p.castling;
    var made := MakeGenerated(p, f);
    ghost var count := PerftOf(b0, t0, ep0, c0, f, depth - 1);
    PerftOfMade(b0, t0, ep0, c0, f, depth - 1, made, p.bitboards, p.turn, p.enpassant, p.castling);
    n := CountIfMade(p, depth, made, count, e0, d0, stack0);
  }

  /** After make_move: a played move is counted one ply shallower and taken back, a refused one counts nothing. */
  method CountIfMade(p: Position, depth: nat, made: bool, ghost count: nat,
                     ghost e0: HistoryEntry, ghost d0: nat, ghost stack0: seq<HistoryEntry>)
    returns (n: nat)
    requires 0 < depth && p.Valid() && |p.positionStack| == |stack0| && d0 + depth <= |stack0|
    requires p.positionStack[..d0] == stack0[..d0]
    requires made ==> p.depth == d0 + 1 && SameBut(p.positionStack[d0], e0)
                      && count == PerftCount(p.bitboards, p.turn, p.enpassant, p.castling, depth - 1)
    requires !made ==> p.depth == d0 && SameBut(p.ToHistoryEntry(), e0) && count == 0
    modifies p
    ensures n == count
    ensures Returned(p, e0, d0, stack0)
    decreases depth, 1
  {
    if made {
      n := CountAndUndo(p, depth - 1, e0, d0, stack0);
    } else {
      n := 0;
    }
  }

  /**
   * The second half of a round of perft's loop, after make_move played the
   * move: perft one ply shallower, then the move is taken back.
   */
  method CountAndUndo(p: Position, depth: nat, ghost e0: HistoryEntry, ghost d0: nat, ghost stack0: seq<HistoryEntry>)
    returns (n: nat)
    requires p.Valid() && p.depth == d0 + 1 && d0 + 1 + depth <= |p.positionStack| && SameBut(p.positionStack[d0], e0)
    requires |stack0| == |p.positionStack| && p.positionStack[..d0] == stack0[..d0]
    modifies p
    ensures n == PerftCount(old(p.bitboards), old(p.turn), old(p.enpassant), old(p.castling), depth)
    ensures Returned(p, e0, d0, stack0)
    decreases depth + 1, 0, 0
  {
    ghost var slot := p.positionStack[d0];
    ghost var before := p.positionStack;
    n := Perft(p, depth);
    assert p.positionStack[..d0 + 1][d0] == before[..d0 + 1][d0];
    ghost var kept := p.positionStack;
    p.UnmakeMove();
    assert p.ToHistoryEntry() == slot;
    assert p.positionStack[..d0] == kept[..d0 + 1][..d0];
  }
}
