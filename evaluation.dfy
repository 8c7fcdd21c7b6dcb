/**
 * The first evaluator of the engine (`evaluation.rs`): material plus
 * piece-square scores, the most-valuable-victim / least-valuable-attacker
 * move ordering, and the way its negamax reads its hash map of bounds.
 */
module Evaluation {
  import opened Wrappers
  import opened Bits
  import Colors
  import opened Pieces
  import opened MoveEffects
  import TranspositionTables

  const MAX_PLY: nat := 64

  // ---------------------------------------------------------------------
  // Piece-square tables (square 0 is a8)
  // ---------------------------------------------------------------------

  const ROOK_POSITIONAL_SCORE: seq<int> := [
    50, 50, 50, 50, 50, 50, 50, 50, 50, 50, 50, 50, 50, 50, 50, 50, 0, 0, 10, 20, 20, 10, 0, 0, 0,
    0, 10, 20, 20, 10, 0, 0, 0, 0, 10, 20, 20, 10, 0, 0, 0, 0, 10, 20, 20, 10, 0, 0, 0, 0, 10, 20,
    20, 10, 0, 0, 0, 0, 0, 20, 20, 0, 0, 0]

  const KNIGHT_POSITIONAL_SCORE: seq<int> := [
    -5, 0, 0, 0, 0, 0, 0, -5, -5, 0, 0, 10, 10, 0, 0, -5, -5, 5, 20, 20, 20, 20, 5, -5, -5, 10, 20,
    30, 30, 20, 10, -5, -5, 10, 20, 30, 30, 20, 10, -5, -5, 5, 20, 10, 10, 20, 5, -5, -5, 0, 0, 0,
    0, 0, 0, -5, -5, -10, 0, 0, 0, 0, -10, -5]

  const BISHOP_POSITIONAL_SCORE: seq<int> := [
    0, 0, 0, 0, 0, 0, 0, 0, 0, 0, 0, 0, 0, 0, 0, 0, 0, 0, 0, 10, 10, 0, 0, 0, 0, 0, 10, 20, 20, 10,
    0, 0, 0, 0, 10, 20, 20, 10, 0, 0, 0, 10, 0, 0, 0, 0, 10, 0, 0, 30, 0, 0, 0, 0, 30, 0, 0, 0,
    -10, 0, 0, -10, 0, 0]

  const PAWN_POSITIONAL_SCORE: seq<int> := [
    90, 90, 90, 90, 90, 90, 90, 90, 30, 30, 30, 40, 40, 30, 30, 30, 20, 20, 20, 30, 30, 30, 20, 20,
    10, 10, 10, 20, 20, 10, 10, 10, 5, 5, 10, 20, 20, 5, 5, 5, 0, 0, 0, 5, 5, 0, 0, 0, 0, 0, 0,
    -10, -10, 0, 0, 0, 0, 0, 0, 0, 0, 0, 0, 0]

  const KING_POSITIONAL_SCORE: seq<int> := [
    0, 0, 0, 0, 0, 0, 0, 0, 0, 0, 5, 5, 5, 5, 0, 0, 0, 5, 5, 10, 10, 5, 5, 0, 0, 5, 10, 20, 20, 10,
    5, 0, 0, 5, 10, 20, 20, 10, 5, 0, 0, 0, 5, 10, 10, 5, 0, 0, 0, 5, 5, -5, -5, 0, 5, 0, 0, 0, 5,
    0, -15, 0, 10, 0]

  /**
   * `MIRROR_SCORE`: entry i names the square on the same file as square i
   * and on rank 1 + i / 8, that is square i with its rank flipped
   * (A1, B1, ..., H1, A2, ... in the source).
   */
  function MirrorScore(s: nat): (m: nat)
    requires s < 64
    ensures m < 64 && m % 8 == s % 8 && m / 8 == 7 - s / 8
  {
    (7 - s / 8) * 8 + s % 8
  }

  lemma MirrorInvolution(s: nat)
    requires s < 64
    ensures MirrorScore(MirrorScore(s)) == s
  {
  }

  /** The colour-swapped piece: white and black of the same kind. */
  function Swap(p: Piece): (q: Piece)
    ensures IsWhite(p) <==> IsBlack(q)
    ensures p == Empty <==> q == Empty
    ensures p != Empty ==> Index(q) == (Index(p) + 6) % 12
  {
    match p
    case WhitePawn => BlackPawn
    case WhiteKnight => BlackKnight
    case WhiteBishop => BlackBishop
    case WhiteRook => BlackRook
    case WhiteQueen => BlackQueen
    case WhiteKing => BlackKing
    case BlackPawn => WhitePawn
    case BlackKnight => WhiteKnight
    case BlackBishop => WhiteBishop
    case BlackRook => WhiteRook
    case BlackQueen => WhiteQueen
    case BlackKing => WhiteKing
    case Empty => Empty
  }

  lemma SwapInvolution(p: Piece)
    ensures Swap(Swap(p)) == p
  {
  }

  /** The white value of a piece kind on a square: base value plus its table entry. */
  function WhiteValue(p: Piece, s: nat): int
    requires IsWhite(p) && s < 64
  {
    match p
    case WhitePawn => 100 + PAWN_POSITIONAL_SCORE[s]
    case WhiteKnight => 300 + KNIGHT_POSITIONAL_SCORE[s]
    case WhiteBishop => 350 + BISHOP_POSITIONAL_SCORE[s]
    case WhiteRook => 500 + ROOK_POSITIONAL_SCORE[s]
    case WhiteQueen => 1000 + (ROOK_POSITIONAL_SCORE[s] + BISHOP_POSITIONAL_SCORE[s])
    case WhiteKing => 10000 + KING_POSITIONAL_SCORE[s]
  }

  /**
   * `get_piece_value`: a white piece counts its value on the square, a
   * black piece minus the value of its white counterpart on the mirrored
   * square, and Empty nothing.
   */
  function GetPieceValue(p: Piece, s: nat): (v: int)
    requires s < 64
    ensures IsWhite(p) ==> v == WhiteValue(p, s)
    ensures IsBlack(p) ==> v == -WhiteValue(Swap(p), MirrorScore(s))
    ensures p == Empty ==> v == 0
  {
    match p
    case WhitePawn => 100 + PAWN_POSITIONAL_SCORE[s]
    case WhiteKnight => 300 + KNIGHT_POSITIONAL_SCORE[s]
    case WhiteBishop => 350 + BISHOP_POSITIONAL_SCORE[s]
    case WhiteRook => 500 + ROOK_POSITIONAL_SCORE[s]
    case WhiteQueen => 1000 + (ROOK_POSITIONAL_SCORE[s] + BISHOP_POSITIONAL_SCORE[s])
    case WhiteKing => 10000 + KING_POSITIONAL_SCORE[s]
    case BlackPawn => -100 - PAWN_POSITIONAL_SCORE[MirrorScore(s)]
    case BlackKnight => -300 - KNIGHT_POSITIONAL_SCORE[MirrorScore(s)]
    case BlackBishop => -350 - BISHOP_POSITIONAL_SCORE[MirrorScore(s)]
    case BlackRook => -500 - ROOK_POSITIONAL_SCORE[MirrorScore(s)]
    case BlackQueen => -1000 - (ROOK_POSITIONAL_SCORE[MirrorScore(s)] + BISHOP_POSITIONAL_SCORE[MirrorScore(s)])
    case BlackKing => -10000 - KING_POSITIONAL_SCORE[MirrorScore(s)]
    case Empty => 0
  }

  /** Swapping a piece's colour and mirroring its square negates its value. */
  lemma PieceValueMirror(p: Piece, s: nat)
    requires s < 64
    ensures GetPieceValue(Swap(p), MirrorScore(s)) == -GetPieceValue(p, s)
  {
    MirrorInvolution(s);
    SwapInvolution(p);
  }

  // ---------------------------------------------------------------------
  // evaluate
  // ---------------------------------------------------------------------

  /** The values of piece `p` on the squares of `S`, added lowest square first. */
  ghost function SquaresValue(p: Piece, S: set<Square>): int
    decreases |S|
  {
    if S == {} then 0
    else
      var s := Least(S);
      GetPieceValue(p, s as int) + SquaresValue(p, S - {s})
  }

  /** The sum does not depend on which square is taken first. */
  lemma {:induction false} SquaresValueAny(p: Piece, S: set<Square>, x: Square)
    requires x in S
    ensures SquaresValue(p, S) == GetPieceValue(p, x as int) + SquaresValue(p, S - {x})
    decreases |S|
  {
    var s := Least(S);
    if s != x {
      SquaresValueAny(p, S - {s}, x);
      SquaresValueAny(p, S - {x}, s);
      assert S - {s} - {x} == S - {x} - {s};
    }
  }

  /** The material of the first `n` boards, white positive and black negative. */
  ghost function BoardsValue(b: seq<bv64>, n: nat): int
    requires n <= |b| && n <= 12
  {
    if n == 0 then 0 else BoardsValue(b, n - 1) + SquaresValue(PieceAt(n - 1), Squares(b[n - 1]))
  }

  /** The score `evaluate` promises: the material sum from the side to move's point of view. */
  ghost function Score(b: seq<bv64>, turn: Colors.Color): int
    requires |b| == 12
  {
    if turn == Colors.White then BoardsValue(b, 12) else -BoardsValue(b, 12)
  }

  /**
   * `evaluate`: pops every square of every board, adding the piece's value,
   * and negates the sum when Black is to move.
   */
  method Evaluate(b: seq<bv64>, turn: Colors.Color) returns (score: int)
    requires |b| == 12
    ensures score == Score(b, turn)
  {
    score := 0;
    var piece := 0;
    while piece < 12
      invariant 0 <= piece <= 12
      invariant score == BoardsValue(b, piece)
    {
      var p := PieceAt(piece);
      var bitboard := b[piece];
      while bitboard != 0
        invariant score + SquaresValue(p, Squares(bitboard)) == BoardsValue(b, piece + 1)
        decreases PopCount(bitboard)
      {
        var square, rest := PopLsb(bitboard);
        score := score + GetPieceValue(p, square as int);
        bitboard := rest;
      }
      SquaresZero();
      piece := piece + 1;
    }
    if turn == Colors.Black {
      score := -score;
    }
  }

  /** The same boards seen by the other side score the opposite. */
  lemma ScoreAntisymmetric(b: seq<bv64>)
    requires |b| == 12
    ensures Score(b, Colors.Black) == -Score(b, Colors.White)
  {
  }

  /** A square with its rank flipped, as `MIRROR_SCORE` maps it. */
  function Flip(s: Square): (f: Square)
    ensures f as int == MirrorScore(s as int)
  {
    var m := MirrorScore(s as int);
    IndexSquare(m);
    m as Square
  }

  /** The squares of `S` with their ranks flipped. */
  ghost function FlipSet(S: set<Square>): set<Square> {
    set s | s in S :: Flip(s)
  }

  lemma FlipTwice(s: Square)
    ensures Flip(Flip(s)) == s
  {
    MirrorInvolution(s as int);
    SquareIndex(s);
    SquareIndex(Flip(Flip(s)));
  }

  lemma FlipSetShrinks(S: set<Square>, x: Square)
    requires x in S
    ensures FlipSet(S) - {Flip(x)} <= FlipSet(S - {x})
  {
    forall y | y in FlipSet(S) - {Flip(x)}
      ensures y in FlipSet(S - {x})
    {
      var s :| s in S && Flip(s) == y;
      assert s != x;
    }
  }

  lemma FlipSetKeeps(S: set<Square>, x: Square)
    requires x in S
    ensures FlipSet(S - {x}) <= FlipSet(S) - {Flip(x)}
  {
    forall y | y in FlipSet(S - {x})
      ensures y in FlipSet(S) - {Flip(x)}
    {
      var s :| s in S - {x} && Flip(s) == y;
      assert y in FlipSet(S);
      FlipInjective(s, x);
    }
  }

  lemma FlipInjective(s: Square, x: Square)
    requires s != x
    ensures Flip(s) != Flip(x)
  {
    FlipTwice(s);
    FlipTwice(x);
  }

  lemma FlipSetRemove(S: set<Square>, x: Square)
    requires x in S
    ensures Flip(x) in FlipSet(S) && FlipSet(S) - {Flip(x)} == FlipSet(S - {x})
  {
    FlipSetShrinks(S, x);
    FlipSetKeeps(S, x);
  }

  /** The other colour's pieces on the flipped squares are worth minus as much. */
  lemma {:induction false} SquaresValueFlip(p: Piece, S: set<Square>)
    ensures SquaresValue(Swap(p), FlipSet(S)) == -SquaresValue(p, S)
    decreases |S|
  {
    if S == {} {
      assert FlipSet(S) == {};
    } else {
      var x := Least(S);
      SquaresValueFlip(p, S - {x});
      FlipSetRemove(S, x);
      SquaresValueAny(Swap(p), FlipSet(S), Flip(x));
      PieceValueMirror(p, x as int);
    }
  }

  /** Under mirrored boards, each black board cancels its white board. */
  lemma {:induction false} MirroredBoardsCancel(b: seq<bv64>, n: nat)
    requires |b| == 12 && n <= 6
    requires forall i | 0 <= i < 6 :: Squares(b[i + 6]) == FlipSet(Squares(b[i]))
    ensures BoardsValue(b, 6 + n) == BoardsValue(b, 6) - BoardsValue(b, n)
  {
    if n > 0 {
      MirroredBoardsCancel(b, n - 1);
      assert PieceAt(n + 5) == Swap(PieceAt(n - 1));
      SquaresValueFlip(PieceAt(n - 1), Squares(b[n - 1]));
    }
  }

  /**
   * A position whose black pieces are the white pieces with ranks flipped
   * (the starting position, or one after 1. e4 e5) scores 0 for either side.
   */
  lemma MirroredScoresZero(b: seq<bv64>, turn: Colors.Color)
    requires |b| == 12
    requires forall i | 0 <= i < 6 :: Squares(b[i + 6]) == FlipSet(Squares(b[i]))
    ensures Score(b, turn) == 0
  {
    MirroredBoardsCancel(b, 6);
  }

  /** Changing one board changes the material sum by that board's change only. */
  lemma {:induction false} BoardsValueChange(b: seq<bv64>, c: seq<bv64>, i: nat, n: nat)
    requires |b| == 12 && |c| == 12 && i < 12 && n <= 12
    requires forall j | 0 <= j < 12 && j != i :: b[j] == c[j]
    ensures BoardsValue(c, n) == BoardsValue(b, n)
              + (if i < n then SquaresValue(PieceAt(i), Squares(c[i])) - SquaresValue(PieceAt(i), Squares(b[i])) else 0)
  {
    if n > 0 {
      BoardsValueChange(b, c, i, n - 1);
    }
  }

  /** Taking piece `PieceAt(i)` off square `x` lowers White's score by its value there. */
  lemma RemovePieceScore(b: seq<bv64>, c: seq<bv64>, i: nat, x: Square)
    requires |b| == 12 && |c| == 12 && i < 12
    requires forall j | 0 <= j < 12 && j != i :: b[j] == c[j]
    requires x in Squares(b[i]) && Squares(c[i]) == Squares(b[i]) - {x}
    ensures Score(c, Colors.White) == Score(b, Colors.White) - GetPieceValue(PieceAt(i), x as int)
  {
    BoardsValueChange(b, c, i, 12);
    SquaresValueAny(PieceAt(i), Squares(b[i]), x);
  }

  /** Moving piece `PieceAt(i)` from `x` to an empty `y` changes White's score by the difference of its values. */
  lemma MovePieceScore(b: seq<bv64>, c: seq<bv64>, i: nat, x: Square, y: Square)
    requires |b| == 12 && |c| == 12 && i < 12
    requires forall j | 0 <= j < 12 && j != i :: b[j] == c[j]
    requires x in Squares(b[i]) && y !in Squares(b[i])
    requires Squares(c[i]) == Squares(b[i]) - {x} + {y}
    ensures Score(c, Colors.White)
            == Score(b, Colors.White) - GetPieceValue(PieceAt(i), x as int) + GetPieceValue(PieceAt(i), y as int)
  {
    var p := PieceAt(i);
    BoardsValueChange(b, c, i, 12);
    SquaresValueAny(p, Squares(b[i]), x);
    SquaresValueAny(p, Squares(c[i]), y);
    assert Squares(c[i]) - {y} == Squares(b[i]) - {x};
  }

  /** The a2, b2 and c2 pawns (squares 48 to 50) of the test positions are worth 100 each. */
  lemma TestPawnValues()
    ensures GetPieceValue(WhitePawn, 48) == 100 && GetPieceValue(WhitePawn, 49) == 100
            && GetPieceValue(WhitePawn, 50) == 100
  {
    assert PAWN_POSITIONAL_SCORE[48] == 0 && PAWN_POSITIONAL_SCORE[49] == 0 && PAWN_POSITIONAL_SCORE[50] == 0;
  }

  /** The a1 rook (56) is worth 500, the h8 rook (7) -500 and the c1 bishop (58) 340. */
  lemma TestRookBishopValues()
    ensures GetPieceValue(WhiteRook, 56) == 500 && GetPieceValue(BlackRook, 7) == -500
    ensures GetPieceValue(WhiteBishop, 58) == 340
  {
    assert MirrorScore(7) == 63;
    assert ROOK_POSITIONAL_SCORE[56] == 0 && ROOK_POSITIONAL_SCORE[63] == 0;
    assert BISHOP_POSITIONAL_SCORE[58] == -10;
  }

  /** e2-e4 (52 to 36) gains 30 for White. */
  lemma TestPawnPush()
    ensures GetPieceValue(WhitePawn, 36) - GetPieceValue(WhitePawn, 52) == 30
  {
    assert PAWN_POSITIONAL_SCORE[36] == 20 && PAWN_POSITIONAL_SCORE[52] == -10;
  }

  /** Ng1-f3 (62 to 45) gains 30 for White. */
  lemma TestKnightMove()
    ensures GetPieceValue(WhiteKnight, 45) - GetPieceValue(WhiteKnight, 62) == 30
  {
    assert KNIGHT_POSITIONAL_SCORE[45] == 20 && KNIGHT_POSITIONAL_SCORE[62] == -10;
  }

  /** e7-e5 (12 to 28) gains 30 for Black: the mirror of e2-e4. */
  lemma TestBlackPawnPush()
    ensures GetPieceValue(BlackPawn, 28) - GetPieceValue(BlackPawn, 12) == -30
  {
    assert MirrorScore(28) == 36 && MirrorScore(12) == 52;
    TestPawnPush();
  }

  // ---------------------------------------------------------------------
  // Move ordering
  // ---------------------------------------------------------------------

  /** `MVV_LVA[attacker][victim]`, rows and columns in piece-index order. */
  const MVV_LVA: seq<seq<int>> := [
    [105, 205, 305, 405, 505, 605, 105, 205, 305, 405, 505, 605],
    [104, 204, 304, 404, 504, 604, 104, 204, 304, 404, 504, 604],
    [103, 203, 303, 403, 503, 603, 103, 203, 303, 403, 503, 603],
    [102, 202, 302, 402, 502, 602, 102, 202, 302, 402, 502, 602],
    [101, 201, 301, 401, 501, 601, 101, 201, 301, 401, 501, 601],
    [100, 200, 300, 400, 500, 600, 100, 200, 300, 400, 500, 600],
    [105, 205, 305, 405, 505, 605, 105, 205, 305, 405, 505, 605],
    [104, 204, 304, 404, 504, 604, 104, 204, 304, 404, 504, 604],
    [103, 203, 303, 403, 503, 603, 103, 203, 303, 403, 503, 603],
    [102, 202, 302, 402, 502, 602, 102, 202, 302, 402, 502, 602],
    [101, 201, 301, 401, 501, 601, 101, 201, 301, 401, 501, 601],
    [100, 200, 300, 400, 500, 600, 100, 200, 300, 400, 500, 600]]

  /** The row the formula gives for an attacker of rank `k`. */
  function MvvLvaRow(k: nat): seq<int>
  {
    seq(12, v requires 0 <= v < 12 => 100 * (v % 6 + 1) + (5 - k))
  }

  /** The rows of the pawn, knight and bishop (white) attackers follow the formula. */
  lemma MvvLvaMinorRows()
    ensures MVV_LVA[0] == MvvLvaRow(0)
    ensures MVV_LVA[1] == MvvLvaRow(1)
    ensures MVV_LVA[2] == MvvLvaRow(2)
  {
  }

  /** The rows of the rook, queen and king (white) attackers follow the formula. */
  lemma MvvLvaMajorRows()
    ensures MVV_LVA[3] == MvvLvaRow(3)
    ensures MVV_LVA[4] == MvvLvaRow(4)
    ensures MVV_LVA[5] == MvvLvaRow(5)
  {
  }

  /** The rows of the pawn, knight and bishop (black) attackers follow the formula. */
  lemma MvvLvaBlackMinorRows()
    ensures MVV_LVA[6] == MvvLvaRow(0)
    ensures MVV_LVA[7] == MvvLvaRow(1)
    ensures MVV_LVA[8] == MvvLvaRow(2)
  {
  }

  /** The rows of the rook, queen and king (black) attackers follow the formula. */
  lemma MvvLvaBlackMajorRows()
    ensures MVV_LVA[9] == MvvLvaRow(3)
    ensures MVV_LVA[10] == MvvLvaRow(4)
    ensures MVV_LVA[11] == MvvLvaRow(5)
  {
  }

  /** Each entry is a hundred times the victim's rank plus five minus the attacker's rank. */
  lemma MvvLvaFormula(a: nat, v: nat)
    requires a < 12 && v < 12
    ensures |MVV_LVA| == 12 && |MVV_LVA[a]| == 12
    ensures MVV_LVA[a][v] == 100 * (v % 6 + 1) + (5 - a % 6)
  {
    MvvLvaMinorRows();
    MvvLvaMajorRows();
    MvvLvaBlackMinorRows();
    MvvLvaBlackMajorRows();
    assert MVV_LVA[a] == MvvLvaRow(a % 6);
  }

  /** A more valuable victim scores higher; for the same victim a cheaper attacker scores higher. */
  lemma MvvLvaOrders(a: nat, v: nat, a': nat, v': nat)
    requires a < 12 && v < 12 && a' < 12 && v' < 12
    ensures v % 6 < v' % 6 ==> MVV_LVA[a][v] < MVV_LVA[a'][v']
    ensures v % 6 == v' % 6 && a % 6 < a' % 6 ==> MVV_LVA[a][v] > MVV_LVA[a'][v']
  {
    MvvLvaFormula(a, v);
    MvvLvaFormula(a', v');
  }

  /**
   * `get_move_mvv_lva` on the tables it reads: the principal-variation move
   * when following the line, then captures by MVV-LVA, killers, history.
   */
  function MvvLvaScore(m: MoveFields, following: bool, pvMove: MoveFields,
                       killer0: MoveFields, killer1: MoveFields, history: seq<seq<int>>): (r: int)
    requires m.piece != Empty && |history| == 12 && forall i | 0 <= i < 12 :: |history[i]| == 64
    ensures following && m == pvMove ==> r == 20000
    ensures !(following && m == pvMove) && m.capture != Empty ==> r == MVV_LVA[Index(m.piece)][Index(m.capture)]
    ensures !(following && m == pvMove) && m.capture == Empty && (m == killer0 || m == killer1) ==> r == 9000
    ensures !(following && m == pvMove) && m.capture == Empty && m != killer0 && m != killer1
            ==> r == history[Index(m.piece)][m.to as int]
  {
    if following && m == pvMove then 20000
    else if m.capture != Empty then MVV_LVA[Index(m.piece)][Index(m.capture)]
    else if killer0 == m then 9000
    else if killer1 == m then 9000
    else history[Index(m.piece)][m.to as int]
  }

  /** Moves paired with their ordering scores. */
  datatype Scored = Scored(m: MoveFields, score: int)

  predicate SortedDown(s: seq<Scored>) {
    forall i, j | 0 <= i < j < |s| :: s[i].score >= s[j].score
  }

  /** Inserts after every element of at least its score, so equal scores keep their order. */
  function Insert(x: Scored, s: seq<Scored>): (r: seq<Scored>)
    ensures multiset(r) == multiset(s) + multiset{x}
    ensures forall y | y in r :: y == x || y in s
    decreases |s|
  {
    if |s| == 0 then [x]
    else if s[0].score >= x.score then
      assert s == [s[0]] + s[1..];
      [s[0]] + Insert(x, s[1..])
    else [x] + s
  }

  lemma {:induction false} InsertSorted(x: Scored, s: seq<Scored>)
    requires SortedDown(s)
    ensures SortedDown(Insert(x, s))
    decreases |s|
  {
    if |s| > 0 && s[0].score >= x.score {
      InsertSorted(x, s[1..]);
      var rest := Insert(x, s[1..]);
      forall k | 0 <= k < |rest|
        ensures s[0].score >= rest[k].score
      {
        assert rest[k] in rest;
        if rest[k] != x {
          var j :| 0 <= j < |s[1..]| && s[1..][j] == rest[k];
          assert s[1 + j] == rest[k];
        }
      }
    }
  }

  /** A stable sort by descending score. */
  function SortDown(s: seq<Scored>): (r: seq<Scored>)
    ensures multiset(r) == multiset(s)
    decreases |s|
  {
    if |s| == 0 then []
    else
      assert s == s[..|s| - 1] + [s[|s| - 1]];
      Insert(s[|s| - 1], SortDown(s[..|s| - 1]))
  }

  lemma {:induction false} SortDownSorted(s: seq<Scored>)
    ensures SortedDown(SortDown(s))
    decreases |s|
  {
    if |s| > 0 {
      SortDownSorted(s[..|s| - 1]);
      InsertSorted(s[|s| - 1], SortDown(s[..|s| - 1]));
    }
  }

  /**
   * `order_moves`: each move paired with its `get_move_mvv_lva` score, then
   * sorted by descending score; the result is a permutation of the input.
   */
  method OrderMoves(moves: seq<MoveFields>, following: bool, pvMove: MoveFields,
                    killer0: MoveFields, killer1: MoveFields, history: seq<seq<int>>)
    returns (ordered: seq<Scored>)
    requires forall i | 0 <= i < |moves| :: moves[i].piece != Empty
    requires |history| == 12 && forall i | 0 <= i < 12 :: |history[i]| == 64
    ensures SortedDown(ordered) && |ordered| == |moves|
    ensures forall i | 0 <= i < |ordered| :: ordered[i].m in moves
              && ordered[i].score == MvvLvaScore(ordered[i].m, following, pvMove, killer0, killer1, history)
    ensures multiset(MovesOf(ordered)) == multiset(moves)
  {
    var scored := ScoreMoves(moves, following, pvMove, killer0, killer1, history);
    ordered := SortDown(scored);
    SortDownSorted(scored);
    MovesOfPermutation(scored, ordered);
    assert MovesOf(scored) == moves;
    forall k | 0 <= k < |ordered|
      ensures ordered[k].m in moves
      ensures ordered[k].score == MvvLvaScore(ordered[k].m, following, pvMove, killer0, killer1, history)
    {
      assert ordered[k] in multiset(scored);
      var j :| 0 <= j < |scored| && scored[j] == ordered[k];
    }
  }

  /** The scoring pass of `order_moves`: every move paired with its score, in the given order. */
  method ScoreMoves(moves: seq<MoveFields>, following: bool, pvMove: MoveFields,
                    killer0: MoveFields, killer1: MoveFields, history: seq<seq<int>>)
    returns (scored: seq<Scored>)
    requires forall i | 0 <= i < |moves| :: moves[i].piece != Empty
    requires |history| == 12 && forall i | 0 <= i < 12 :: |history[i]| == 64
    ensures |scored| == |moves|
    ensures forall k | 0 <= k < |moves| :: scored[k] == Scored(moves[k], MvvLvaScore(moves[k], following, pvMove, killer0, killer1, history))
  {
    scored := [];
    var i := 0;
    while i < |moves|
      invariant 0 <= i <= |moves| && |scored| == i
      invariant forall k | 0 <= k < i :: scored[k] == Scored(moves[k], MvvLvaScore(moves[k], following, pvMove, killer0, killer1, history))
    {
      scored := scored + [Scored(moves[i], MvvLvaScore(moves[i], following, pvMove, killer0, killer1, history))];
      i := i + 1;
    }
  }

  /** The moves of a scored list, in order. */
  function MovesOf(s: seq<Scored>): (r: seq<MoveFields>)
    ensures |r| == |s| && forall k | 0 <= k < |s| :: r[k] == s[k].m
  {
    seq(|s|, k requires 0 <= k < |s| => s[k].m)
  }

  /** Taking a matching element out of two permutations leaves permutations. */
  lemma RemoveMatching(a: seq<Scored>, b: seq<Scored>, j: nat)
    requires |a| > 0 && j < |b| && b[j] == a[0] && multiset(a) == multiset(b)
    ensures multiset(a[1..]) == multiset(b[..j] + b[j + 1..])
  {
    var x := a[0];
    assert a == [x] + a[1..];
    assert b == b[..j] + [x] + b[j + 1..];
    calc {
      multiset(a[1..]);
      multiset(a) - multiset{x};
      multiset(b) - multiset{x};
      multiset(b[..j]) + multiset(b[j + 1..]);
    }
  }

  /** Taking element `j` out of a scored list takes its move out of the moves. */
  lemma MovesOfRemove(b: seq<Scored>, j: nat)
    requires j < |b|
    ensures multiset(MovesOf(b)) == multiset{b[j].m} + multiset(MovesOf(b[..j] + b[j + 1..]))
  {
    assert MovesOf(b) == MovesOf(b[..j]) + [b[j].m] + MovesOf(b[j + 1..]);
    assert MovesOf(b[..j] + b[j + 1..]) == MovesOf(b[..j]) + MovesOf(b[j + 1..]);
  }

  /** Permuting a scored list permutes its moves. */
  lemma {:induction false} MovesOfPermutation(a: seq<Scored>, b: seq<Scored>)
    requires multiset(a) == multiset(b)
    ensures multiset(MovesOf(a)) == multiset(MovesOf(b))
    decreases |a|
  {
    if |a| == 0 {
      assert |b| == |multiset(b)| == 0;
    } else {
      assert a[0] in multiset(b);
      var j :| 0 <= j < |b| && b[j] == a[0];
      RemoveMatching(a, b, j);
      MovesOfPermutation(a[1..], b[..j] + b[j + 1..]);
      MatchedMoves(a, b, j);
    }
  }

  /** The inductive step: matching heads and permuted rests give permuted moves. */
  lemma MatchedMoves(a: seq<Scored>, b: seq<Scored>, j: nat)
    requires |a| > 0 && j < |b| && b[j] == a[0]
    requires multiset(MovesOf(a[1..])) == multiset(MovesOf(b[..j] + b[j + 1..]))
    ensures multiset(MovesOf(a)) == multiset(MovesOf(b))
  {
    MovesOfRemove(b, j);
    MovesOfHead(a);
  }

  /** The moves of a non-empty scored list are its head's move and the moves of its tail. */
  lemma MovesOfHead(a: seq<Scored>)
    requires |a| > 0
    ensures multiset(MovesOf(a)) == multiset{a[0].m} + multiset(MovesOf(a[1..]))
  {
    assert MovesOf(a) == [a[0].m] + MovesOf(a[1..]);
  }

  // ---------------------------------------------------------------------
  // The hash map of bounds and the scores of finished nodes
  // ---------------------------------------------------------------------

  /** A position hash by its numeric value, the key of the evaluator's hash map. */
  type HashKey = h: nat | h < 0x1_0000_0000_0000_0000

  /**
   * The bound test at the top of `negamax`, on its hash map keyed by the
   * position's hash: an entry searched at least as deep answers with its
   * exact value, or with alpha or beta when its bound proves the window is
   * missed. The stored key is not compared.
   */
  function ProbeBounds(tt: map<HashKey, TranspositionTables.Entry>, hash: HashKey, depth: TranspositionTables.Depth,
                       alpha: int, beta: int): (r: Option<int>)
    ensures r.Some? ==> hash in tt && tt[hash].depth >= depth
    ensures hash in tt && tt[hash].key == hash as bv64
            ==> r == TranspositionTables.ProbeEntry(tt[hash], hash as bv64, depth, alpha, beta)
  {
    if hash in tt && tt[hash].depth >= depth then
      var e := tt[hash];
      if e.flag == TranspositionTables.Exact then Some(e.value)
      else if e.flag == TranspositionTables.Alpha && e.value <= alpha then Some(alpha)
      else if e.flag == TranspositionTables.Beta && e.value >= beta then Some(beta)
      else None
    else None
  }

  /**
   * An entry `negamax` inserts under a hash answers later probes of that
   * hash at a lower or equal depth by its bound.
   */
  lemma InsertThenProbe(tt: map<HashKey, TranspositionTables.Entry>, hash: HashKey, d: TranspositionTables.Depth,
                        flag: TranspositionTables.Flag, v: int,
                        depth: TranspositionTables.Depth, alpha: int, beta: int)
    requires depth <= d
    ensures var r := ProbeBounds(tt[hash := TranspositionTables.Entry(hash as bv64, d, flag, v)], hash, depth, alpha, beta);
      && (flag == TranspositionTables.Exact ==> r == Some(v))
      && (flag == TranspositionTables.Alpha && v <= alpha ==> r == Some(alpha))
      && (flag == TranspositionTables.Beta && v >= beta ==> r == Some(beta))
  {
    var tt' := tt[hash := TranspositionTables.Entry(hash as bv64, d, flag, v)];
    assert hash in tt' && tt'[hash] == TranspositionTables.Entry(hash as bv64, d, flag, v);
  }

  /** An insert leaves the answers for every other hash as they were. */
  lemma InsertKeepsOthers(tt: map<HashKey, TranspositionTables.Entry>, hash: HashKey, e: TranspositionTables.Entry,
                          other: HashKey, depth: TranspositionTables.Depth, alpha: int, beta: int)
    requires other != hash
    ensures ProbeBounds(tt[hash := e], other, depth, alpha, beta) == ProbeBounds(tt, other, depth, alpha, beta)
  {
    var tt' := tt[hash := e];
    if other in tt {
      assert tt'[other] == tt[other];
    } else {
      assert other !in tt';
    }
  }
}
