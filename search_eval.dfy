/**
 * The static evaluation of the searcher (`Evaluator::evaluate` in
 * `search/evaluate.rs`): the material balance plus four positional terms,
 * pawn structure, rooks on open files, the king's pawn shield and the
 * bishop pair, each counted for White and for Black and reported from the
 * side to move's point of view.
 *
 * The boards are the twelve piece bitboards, white pawn to black king.  The
 * file, isolated-pawn, passed-pawn and king-attack tables are the position's
 * precomputed masks, taken as parameters here.
 */
module PositionalEvaluation {
  import opened Bits
  import Colors

  const BISHOP_PAIR_BONUS: int := 30
  const DOUBLED_PAWN_PENALTY: int := -15
  const ISOLATED_PAWN_PENALTY: int := -15
  const PASSED_PAWN_BONUS: seq<int> := [0, 5, 10, 20, 35, 60, 100, 200]
  const SEMI_OPEN_FILE_SCORE: int := 10
  const OPEN_FILE_SCORE: int := 20

  /** Bitboard indices of the pieces the terms look at. */
  const WHITE_PAWN: nat := 0
  const WHITE_BISHOP: nat := 2
  const WHITE_ROOK: nat := 3
  const WHITE_KING: nat := 5
  const BLACK_PAWN: nat := 6
  const BLACK_BISHOP: nat := 8
  const BLACK_ROOK: nat := 9
  const BLACK_KING: nat := 11

  /** A table with one mask per square. */
  predicate IsTable(t: seq<bv64>) { |t| == 64 }

  /** No piece of `pieces` stands on a square of `mask`. */
  predicate Free(pieces: bv64, mask: bv64) { pieces & mask == 0 }

  /** How many pieces of `pieces` stand on a square of `mask`. */
  function CountOn(pieces: bv64, mask: bv64): nat { PopCount(pieces & mask) }

  /** A rank index 0..7, counted from White's side. */
  type RankIndex = r: nat | r <= 7

  /** `GET_RANK`: the rank index from White's side, 7 on the eighth rank (squares 0..7) down to 0 on the first. */
  const GET_RANK: seq<RankIndex> := [
    7, 7, 7, 7, 7, 7, 7, 7, 6, 6, 6, 6, 6, 6, 6, 6, 5, 5, 5, 5, 5, 5, 5, 5, 4, 4, 4, 4, 4, 4, 4, 4,
    3, 3, 3, 3, 3, 3, 3, 3, 2, 2, 2, 2, 2, 2, 2, 2, 1, 1, 1, 1, 1, 1, 1, 1, 0, 0, 0, 0, 0, 0, 0, 0]

  /** A term's values over the squares of `S`, added lowest square first. */
  ghost function SumOver(S: set<Square>, f: Square -> int): int
    decreases |S|
  {
    if S == {} then 0
    else
      var s := Least(S);
      f(s) + SumOver(S - {s}, f)
  }

  /** The sum does not depend on which square is taken first. */
  lemma {:induction false} SumOverAny(S: set<Square>, f: Square -> int, x: Square)
    requires x in S
    ensures SumOver(S, f) == f(x) + SumOver(S - {x}, f)
    decreases |S|
  {
    var s := Least(S);
    if s != x {
      SumOverAny(S - {s}, f, x);
      SumOverAny(S - {x}, f, s);
      assert S - {s} - {x} == S - {x} - {s};
    }
  }

  // ---------------------------------------------------------------------
  // Bishop pair
  // ---------------------------------------------------------------------

  /** The bonus of one side: 30 for two bishops or more. */
  function PairBonus(bishops: bv64): (v: int)
    ensures v == (if PopCount(bishops) >= 2 then BISHOP_PAIR_BONUS else 0)
  {
    if PopCount(bishops) >= 2 then BISHOP_PAIR_BONUS else 0
  }

  /** `evaluate_bishop_pair`: the side to move's bonus minus the opponent's. */
  function BishopPair(b: seq<bv64>, turn: Colors.Color): (r: int)
    requires |b| == 12
    ensures r == 30 <==> PairBonus(b[if turn == Colors.White then WHITE_BISHOP else BLACK_BISHOP]) == 30
                         && PairBonus(b[if turn == Colors.White then BLACK_BISHOP else WHITE_BISHOP]) == 0
    ensures r == -30 <==> PairBonus(b[if turn == Colors.White then WHITE_BISHOP else BLACK_BISHOP]) == 0
                          && PairBonus(b[if turn == Colors.White then BLACK_BISHOP else WHITE_BISHOP]) == 30
    ensures r == 0 || r == 30 || r == -30
  {
    var white := PairBonus(b[WHITE_BISHOP]);
    var black := PairBonus(b[BLACK_BISHOP]);
    if turn == Colors.White then white - black else black - white
  }

  /** The bishop-pair term changes sign when the side to move changes. */
  lemma BishopPairFlips(b: seq<bv64>)
    requires |b| == 12
    ensures BishopPair(b, Colors.Black) == -BishopPair(b, Colors.White)
  {
  }

  // ---------------------------------------------------------------------
  // Pawn structure
  // ---------------------------------------------------------------------

  /** The masks `evaluate_pawn_structure` reads, one per square. */
  datatype PawnMasks = PawnMasks(file: seq<bv64>, isolated: seq<bv64>, whitePassed: seq<bv64>, blackPassed: seq<bv64>)

  predicate MasksValid(m: PawnMasks)
  {
    IsTable(m.file) && IsTable(m.isolated) && IsTable(m.whitePassed) && IsTable(m.blackPassed)
  }

  /** Every pawn on a file holding `d > 1` pawns of its side costs `-15 * d`. */
  function DoubledTerm(own: bv64, fileMask: bv64): int
  {
    var doubled := CountOn(own, fileMask);
    if doubled > 1 then DOUBLED_PAWN_PENALTY * doubled else 0
  }

  /** A pawn with no friendly pawn on the neighbouring files costs 15. */
  function IsolatedTerm(own: bv64, isolatedMask: bv64): int
  {
    if Free(own, isolatedMask) then ISOLATED_PAWN_PENALTY else 0
  }

  /** A pawn no enemy pawn can stop earns the bonus of its rank, counted from its own side. */
  function PassedTerm(enemy: bv64, passedMask: bv64, rank: RankIndex): int
  {
    if Free(enemy, passedMask) then PASSED_PAWN_BONUS[rank] else 0
  }

  /** What a pawn of one side on `s` scores: the three terms above. */
  function PawnTerm(own: bv64, enemy: bv64, m: PawnMasks, white: bool, s: Square): int
  {
    if !MasksValid(m) then 0
    else
      DoubledTerm(own, m.file[s]) + IsolatedTerm(own, m.isolated[s])
        + (if white then PassedTerm(enemy, m.whitePassed[s], GET_RANK[s])
           else PassedTerm(enemy, m.blackPassed[s], 7 - GET_RANK[s]))
  }

  function PawnTerms(own: bv64, enemy: bv64, m: PawnMasks, white: bool): Square -> int
  {
    s => PawnTerm(own, enemy, m, white, s)
  }

  /** The pawn-structure score of one side: the sum of its pawns' terms. */
  ghost function SidePawnScore(own: bv64, enemy: bv64, m: PawnMasks, white: bool): int
  {
    SumOver(Squares(own), PawnTerms(own, enemy, m, white))
  }

  /** The pawn-structure term from the side to move's point of view. */
  ghost function PawnStructureScore(b: seq<bv64>, turn: Colors.Color, m: PawnMasks): int
    requires |b| == 12
  {
    var white := SidePawnScore(b[WHITE_PAWN], b[BLACK_PAWN], m, true);
    var black := SidePawnScore(b[BLACK_PAWN], b[WHITE_PAWN], m, false);
    if turn == Colors.White then white - black else black - white
  }

  /** One side's loop of `evaluate_pawn_structure`: pops every pawn and adds its penalties and bonus. */
  method SidePawns(own: bv64, enemy: bv64, m: PawnMasks, white: bool) returns (score: int)
    requires MasksValid(m)
    ensures score == SidePawnScore(own, enemy, m, white)
  {
    score := 0;
    var pawns := own;
    while pawns != 0
      invariant score + SumOver(Squares(pawns), PawnTerms(own, enemy, m, white)) == SidePawnScore(own, enemy, m, white)
      decreases PopCount(pawns)
    {
      var square, rest := PopLsb(pawns);
      SumOverAny(Squares(pawns), PawnTerms(own, enemy, m, white), square);
      var term := PawnScore(own, enemy, m, white, square);
      score := score + term;
      pawns := rest;
    }
    SquaresZero();
  }

  /** The body of the pawn loop for the pawn on `square`. */
  method PawnScore(own: bv64, enemy: bv64, m: PawnMasks, white: bool, square: Square) returns (score: int)
    requires MasksValid(m)
    ensures score == PawnTerm(own, enemy, m, white, square)
  {
    var doubled := Doubled(own, m.file[square]);
    var isolated := if Free(own, m.isolated[square]) then ISOLATED_PAWN_PENALTY else 0;
    var rank := GET_RANK[square];
    var passed := 0;
    if white {
      if Free(enemy, m.whitePassed[square]) {
        passed := PASSED_PAWN_BONUS[rank];
      }
    } else {
      if Free(enemy, m.blackPassed[square]) {
        passed := PASSED_PAWN_BONUS[7 - rank];
      }
    }
    score := doubled + isolated + passed;
  }

  /** The doubled-pawn step: counts the pawns on the file with `count_bits`. */
  method Doubled(own: bv64, fileMask: bv64) returns (score: int)
    ensures score == DoubledTerm(own, fileMask)
  {
    var onFile := own & fileMask;
    var doubledPawns := CountBits(onFile);
    score := 0;
    if doubledPawns > 1 {
      score := DOUBLED_PAWN_PENALTY * doubledPawns;
    }
  }

  /** `evaluate_pawn_structure`: White's and Black's pawn scores, as a difference for the side to move. */
  method PawnStructure(b: seq<bv64>, turn: Colors.Color, m: PawnMasks) returns (score: int)
    requires |b| == 12 && MasksValid(m)
    ensures score == PawnStructureScore(b, turn, m)
  {
    var whiteScore := SidePawns(b[WHITE_PAWN], b[BLACK_PAWN], m, true);
    var blackScore := SidePawns(b[BLACK_PAWN], b[WHITE_PAWN], m, false);
    score := if turn == Colors.White then whiteScore - blackScore else blackScore - whiteScore;
  }

  /** Without pawns there is no pawn-structure score. */
  lemma NoPawnsNoScore(b: seq<bv64>, turn: Colors.Color, m: PawnMasks)
    requires |b| == 12 && b[WHITE_PAWN] == 0 && b[BLACK_PAWN] == 0
    ensures PawnStructureScore(b, turn, m) == 0
  {
    SquaresZero();
  }

  // ---------------------------------------------------------------------
  // Open files
  // ---------------------------------------------------------------------

  /**
   * What a rook on `s` scores: 10 on a file without pawns of its own side
   * and a further 20 on a file without any pawn.
   */
  function RookTerm(ownPawns: bv64, allPawns: bv64, file: seq<bv64>, s: Square): int
  {
    if !IsTable(file) then 0
    else
      (if Free(ownPawns, file[s]) then SEMI_OPEN_FILE_SCORE else 0)
        + (if Free(allPawns, file[s]) then OPEN_FILE_SCORE else 0)
  }

  function RookTerms(ownPawns: bv64, allPawns: bv64, file: seq<bv64>): Square -> int
  {
    s => RookTerm(ownPawns, allPawns, file, s)
  }

  /** A file free of all pawns is free of the rook's own pawns, so a rook scores 0, 10 or 30. */
  lemma RookTermValues(ownPawns: bv64, otherPawns: bv64, file: seq<bv64>, s: Square)
    requires IsTable(file)
    ensures var v := RookTerm(ownPawns, ownPawns | otherPawns, file, s); v == 0 || v == 10 || v == 30
  {
    if Free(ownPawns | otherPawns, file[s]) {
      UnionFree(ownPawns, otherPawns, file[s]);
    }
  }

  /** A mask free of a union is free of each part. */
  lemma UnionFree(a: bv64, o: bv64, f: bv64)
    requires Free(a | o, f)
    ensures Free(a, f)
  {
    assert a & f == ((a | o) & f) & a;
  }

  /** The open-file score of one side's rooks. */
  ghost function SideRookScore(rooks: bv64, ownPawns: bv64, allPawns: bv64, file: seq<bv64>): int
  {
    SumOver(Squares(rooks), RookTerms(ownPawns, allPawns, file))
  }

  /** The open-file term from the side to move's point of view. */
  ghost function OpenFilesScore(b: seq<bv64>, turn: Colors.Color, file: seq<bv64>): int
    requires |b| == 12
  {
    var all := b[WHITE_PAWN] | b[BLACK_PAWN];
    var white := SideRookScore(b[WHITE_ROOK], b[WHITE_PAWN], all, file);
    var black := SideRookScore(b[BLACK_ROOK], b[BLACK_PAWN], all, file);
    if turn == Colors.White then white - black else black - white
  }

  /** One side's loop of `evaluate_open_files`. */
  method SideRooks(rooks: bv64, ownPawns: bv64, allPawns: bv64, file: seq<bv64>) returns (score: int)
    requires IsTable(file)
    ensures score == SideRookScore(rooks, ownPawns, allPawns, file)
  {
    score := 0;
    var remaining := rooks;
    while remaining != 0
      invariant score + SumOver(Squares(remaining), RookTerms(ownPawns, allPawns, file))
                == SideRookScore(rooks, ownPawns, allPawns, file)
      decreases PopCount(remaining)
    {
      var square, rest := PopLsb(remaining);
      SumOverAny(Squares(remaining), RookTerms(ownPawns, allPawns, file), square);
      if Free(ownPawns, file[square]) {
        score := score + SEMI_OPEN_FILE_SCORE;
      }
      if Free(allPawns, file[square]) {
        score := score + OPEN_FILE_SCORE;
      }
      remaining := rest;
    }
    SquaresZero();
  }

  /** `evaluate_open_files`: both sides' rook scores, as a difference for the side to move. */
  method OpenFiles(b: seq<bv64>, turn: Colors.Color, file: seq<bv64>) returns (score: int)
    requires |b| == 12 && IsTable(file)
    ensures score == OpenFilesScore(b, turn, file)
  {
    var allPawns := b[WHITE_PAWN] | b[BLACK_PAWN];
    var whiteScore := SideRooks(b[WHITE_ROOK], b[WHITE_PAWN], allPawns, file);
    var blackScore := SideRooks(b[BLACK_ROOK], b[BLACK_PAWN], allPawns, file);
    score := if turn == Colors.White then whiteScore - blackScore else blackScore - whiteScore;
  }

  // ---------------------------------------------------------------------
  // King safety
  // ---------------------------------------------------------------------

  /** Six points per own pawn on a square next to the king (the lowest king, if several); 0 without a king. */
  function Shield(kings: bv64, pawns: bv64, kingAttacks: seq<bv64>): (v: int)
    requires IsTable(kingAttacks)
    ensures kings == 0 ==> v == 0
    ensures kings != 0 ==> v == 6 * PopCount(kingAttacks[GetLsb(kings)] & pawns)
  {
    if kings != 0 then 6 * PopCount(kingAttacks[GetLsb(kings)] & pawns) else 0
  }

  /**
   * `evaluate_king_safety` as written: `(white - black) * -(1 - 2 * turn)`,
   * with White's index 0, which is the opponent's shield minus the side to
   * move's own.
   */
  function KingSafetyAsWritten(b: seq<bv64>, turn: Colors.Color, kingAttacks: seq<bv64>): (r: int)
    requires |b| == 12 && IsTable(kingAttacks)
  {
    var white := Shield(b[WHITE_KING], b[WHITE_PAWN], kingAttacks);
    var black := Shield(b[BLACK_KING], b[BLACK_PAWN], kingAttacks);
    var multiplier := 1 - 2 * Colors.Index(turn);
    (white - black) * -multiplier
  }

  /** For either side to move, the term as written is the negation of the intended one. */
  lemma KingSafetyInverted(b: seq<bv64>, turn: Colors.Color, kingAttacks: seq<bv64>)
    requires |b| == 12 && IsTable(kingAttacks)
    ensures KingSafetyAsWritten(b, turn, kingAttacks) == -KingSafety(b, turn, kingAttacks)
  {
    var white := Shield(b[WHITE_KING], b[WHITE_PAWN], kingAttacks);
    var black := Shield(b[BLACK_KING], b[BLACK_PAWN], kingAttacks);
    if turn == Colors.White {
      assert KingSafetyAsWritten(b, turn, kingAttacks) == (white - black) * -1;
    } else {
      assert KingSafetyAsWritten(b, turn, kingAttacks) == (white - black) * 1;
    }
  }

  /** The king-safety term with the sign of the other terms: own shield minus the opponent's. */
  function KingSafety(b: seq<bv64>, turn: Colors.Color, kingAttacks: seq<bv64>): (r: int)
    requires |b| == 12 && IsTable(kingAttacks)
    ensures turn == Colors.White ==> r == Shield(b[WHITE_KING], b[WHITE_PAWN], kingAttacks) - Shield(b[BLACK_KING], b[BLACK_PAWN], kingAttacks)
    ensures turn == Colors.Black ==> r == Shield(b[BLACK_KING], b[BLACK_PAWN], kingAttacks) - Shield(b[WHITE_KING], b[WHITE_PAWN], kingAttacks)
  {
    var white := Shield(b[WHITE_KING], b[WHITE_PAWN], kingAttacks);
    var black := Shield(b[BLACK_KING], b[BLACK_PAWN], kingAttacks);
    if turn == Colors.White then white - black else black - white
  }

  /** The king mask of g1 (square 62): f1, h1, f2, g2 and h2. */
  const G1_KING_MASK: bv64 := 0xA0E0_0000_0000_0000

  /**
   * White to move, the white king on g1 behind pawns on f2, g2 and h2, and
   * a lone black king on a8: as written the shield counts -18 for White,
   * though it is White's king that is sheltered.
   */
  lemma ShieldCountsAgainstMover(kingAttacks: seq<bv64>)
    requires IsTable(kingAttacks) && kingAttacks[62] == G1_KING_MASK
    ensures var b := [0x00E0_0000_0000_0000, 0, 0, 0, 0, 0x4000_0000_0000_0000, 0, 0, 0, 0, 0, 1];
      && KingSafetyAsWritten(b, Colors.White, kingAttacks) == -18
      && KingSafety(b, Colors.White, kingAttacks) == 18
  {
    var b: seq<bv64> := [0x00E0_0000_0000_0000, 0, 0, 0, 0, 0x4000_0000_0000_0000, 0, 0, 0, 0, 0, 1];
    var k := GetLsb(0x4000_0000_0000_0000);
    assert k == 62;
    assert G1_KING_MASK & 0x00E0_0000_0000_0000 == 0x00E0_0000_0000_0000;
    assert PopCount(0x00E0_0000_0000_0000) == 3;
    assert Shield(b[BLACK_KING], b[BLACK_PAWN], kingAttacks) == 0;
  }

  // ---------------------------------------------------------------------
  // The whole evaluation
  // ---------------------------------------------------------------------

  /** The score `evaluate` promises: material balance plus the four terms, all for the side to move. */
  ghost function Score(material: seq<int>, b: seq<bv64>, turn: Colors.Color, m: PawnMasks, kingAttacks: seq<bv64>): int
    requires |material| == 2 && |b| == 12 && IsTable(kingAttacks)
  {
    material[Colors.Index(turn)] - material[Colors.Index(Colors.Not(turn))]
      + PawnStructureScore(b, turn, m) + OpenFilesScore(b, turn, m.file)
      + KingSafety(b, turn, kingAttacks) + BishopPair(b, turn)
  }

  /** `evaluate`, with the king-safety term's sign corrected. */
  method Evaluate(material: seq<int>, b: seq<bv64>, turn: Colors.Color, m: PawnMasks, kingAttacks: seq<bv64>)
    returns (score: int)
    requires |material| == 2 && |b| == 12 && MasksValid(m) && IsTable(kingAttacks)
    ensures score == Score(material, b, turn, m, kingAttacks)
  {
    var pawns := PawnStructure(b, turn, m);
    var files := OpenFiles(b, turn, m.file);
    score := material[Colors.Index(turn)] - material[Colors.Index(Colors.Not(turn))]
      + pawns + files + KingSafety(b, turn, kingAttacks) + BishopPair(b, turn);
  }

  /** The evaluation is zero-sum: the same position seen by the other side scores the opposite. */
  lemma ScoreFlips(material: seq<int>, b: seq<bv64>, m: PawnMasks, kingAttacks: seq<bv64>)
    requires |material| == 2 && |b| == 12 && IsTable(kingAttacks)
    ensures Score(material, b, Colors.Black, m, kingAttacks) == -Score(material, b, Colors.White, m, kingAttacks)
  {
    BishopPairFlips(b);
  }
}
