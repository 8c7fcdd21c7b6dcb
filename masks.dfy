// `set_file_rank_mask` and the file, rank, isolated-pawn and passed-pawn
// mask tables the evaluation builds from it (the pawn-structure masks).

module Masks {
  import opened Bits
  import opened Rays

  /**
   * The squares `set_file_rank_mask(file_num, rank_num)` selects: the file
   * file_num when it is not -1, otherwise the rank rank_num when that is
   * not -1, otherwise none.  A number outside 0..7 matches no square.
   */
  predicate Selected(fileNum: int, rankNum: int, t: Square) {
    if fileNum != -1 then FileOf(t) as int == fileNum
    else rankNum != -1 && RankOf(t) as int == rankNum
  }

  ghost function FileRankSet(fileNum: int, rankNum: int): set<Square> {
    set t | t in ALL && Selected(fileNum, rankNum, t)
  }

  /** The selected squares the rank-major scan has passed before reaching (rank, file). */
  ghost function SelectedBefore(fileNum: int, rankNum: int, rank: bv6, file: bv6): set<Square> {
    set t | t in ALL && Selected(fileNum, rankNum, t) &&
            (RankOf(t) < rank || (RankOf(t) == rank && FileOf(t) < file))
  }

  lemma BeforeStart(fileNum: int, rankNum: int)
    ensures SelectedBefore(fileNum, rankNum, 0, 0) == {}
  {
  }

  lemma BeforeNextRank(fileNum: int, rankNum: int, rank: bv6)
    requires rank < 8
    ensures SelectedBefore(fileNum, rankNum, rank, 8) == SelectedBefore(fileNum, rankNum, rank + 1, 0)
  {
    forall t | t in ALL
      ensures t in SelectedBefore(fileNum, rankNum, rank, 8) <==> t in SelectedBefore(fileNum, rankNum, rank + 1, 0)
    {
      RankFileRange(t);
    }
  }

  lemma BeforeEnd(fileNum: int, rankNum: int)
    ensures SelectedBefore(fileNum, rankNum, 8, 0) == FileRankSet(fileNum, rankNum)
  {
    forall t | t in ALL
      ensures t in SelectedBefore(fileNum, rankNum, 8, 0) <==> t in FileRankSet(fileNum, rankNum)
    {
      RankFileRange(t);
    }
  }

  lemma BeforeAt(fileNum: int, rankNum: int, rank: bv6, file: bv6, t: Square)
    requires rank < 8 && file < 8
    ensures t in SelectedBefore(fileNum, rankNum, rank, file + 1) <==>
            t in SelectedBefore(fileNum, rankNum, rank, file) ||
            (t == rank * 8 + file && Selected(fileNum, rankNum, t))
  {
    InAll(t);
    SquareOfRankFile(rank, file);
    if RankOf(t) == rank && FileOf(t) == file {
      SquareEq(t, rank * 8 + file);
    }
  }

  /** One visit of the scan: the square is set exactly when it is selected. */
  lemma BeforeStep(fileNum: int, rankNum: int, rank: bv6, file: bv6, mask: bv64, mask': bv64)
    requires rank < 8 && file < 8
    requires Squares(mask) == SelectedBefore(fileNum, rankNum, rank, file)
    requires Selected(fileNum, rankNum, rank * 8 + file) ==> mask' == SetBit(mask, rank * 8 + file)
    requires !Selected(fileNum, rankNum, rank * 8 + file) ==> mask' == mask
    ensures Squares(mask') == SelectedBefore(fileNum, rankNum, rank, file + 1)
  {
    if Selected(fileNum, rankNum, rank * 8 + file) {
      SquaresSetBit(mask, rank * 8 + file);
    }
    forall t: Square
      ensures t in SelectedBefore(fileNum, rankNum, rank, file + 1) <==>
              t in SelectedBefore(fileNum, rankNum, rank, file) ||
              (t == rank * 8 + file && Selected(fileNum, rankNum, t))
    {
      BeforeAt(fileNum, rankNum, rank, file, t);
    }
  }

  /** The engine's per-square test names the same squares as `Selected`. */
  lemma TestIsSelected(fileNum: int, rankNum: int, rank: bv6, file: bv6, hit: bool)
    requires rank < 8 && file < 8
    requires hit == if fileNum != -1 then file as int == fileNum
                    else rankNum != -1 && rank as int == rankNum
    ensures hit == Selected(fileNum, rankNum, rank * 8 + file)
  {
    SquareOfRankFile(rank, file);
  }

  /**
   * `set_file_rank_mask`: scans the board rank by rank and sets every
   * square of the requested file, or else of the requested rank.
   */
  method SetFileRankMask(fileNum: int, rankNum: int) returns (mask: bv64)
    ensures Squares(mask) == FileRankSet(fileNum, rankNum)
  {
    mask := 0;
    SquaresZero();
    BeforeStart(fileNum, rankNum);
    var rank: bv6 := 0;
    while rank < 8
      invariant rank <= 8
      invariant Squares(mask) == SelectedBefore(fileNum, rankNum, rank, 0)
    {
      var file: bv6 := 0;
      while file < 8
        invariant file <= 8
        invariant Squares(mask) == SelectedBefore(fileNum, rankNum, rank, file)
      {
        var square := rank * 8 + file;
        ghost var before := mask;
        if fileNum != -1 {
          if file as int == fileNum {
            mask := SetBit(mask, square);
          }
        } else if rankNum != -1 {
          if rank as int == rankNum {
            mask := SetBit(mask, square);
          }
        }
        TestIsSelected(fileNum, rankNum, rank, file,
          if fileNum != -1 then file as int == fileNum else rankNum != -1 && rank as int == rankNum);
        BeforeStep(fileNum, rankNum, rank, file, before, mask);
        file := file + 1;
      }
      BeforeNextRank(fileNum, rankNum, rank);
      rank := rank + 1;
    }
    BeforeEnd(fileNum, rankNum);
  }

  /** The eight squares of file f, listed rank by rank. */
  function FileSquares(f: bv6): set<Square> {
    {f, 8 + f, 16 + f, 24 + f, 32 + f, 40 + f, 48 + f, 56 + f}
  }

  /** The eight squares of rank r, listed file by file. */
  function RankSquares(r: bv6): set<Square> {
    var b := r * 8;
    {b, b + 1, b + 2, b + 3, b + 4, b + 5, b + 6, b + 7}
  }

  lemma FileSquaresAt(f: bv6, t: Square)
    requires f < 8
    ensures t in FileSquares(f) <==> FileOf(t) == f
  {
  }

  lemma RankSquaresAt(r: bv6, t: Square)
    requires r < 8
    ensures t in RankSquares(r) <==> RankOf(t) == r
  {
  }

  lemma FileSquaresSize(f: bv6)
    requires f < 8
    ensures |FileSquares(f)| == 8
  {
  }

  lemma RankSquaresSize(r: bv6)
    requires r < 8
    ensures |RankSquares(r)| == 8
  {
  }

  lemma FileOfInt(t: Square, fileNum: int)
    requires 0 <= fileNum < 8
    ensures FileOf(t) as int == fileNum <==> FileOf(t) == fileNum as bv6
  {
  }

  lemma RankOfInt(t: Square, rankNum: int)
    requires 0 <= rankNum < 8
    ensures RankOf(t) as int == rankNum <==> RankOf(t) == rankNum as bv6
  {
  }

  /** A file mask holds exactly the eight squares of that file. */
  lemma FileMaskSquares(fileNum: int, rankNum: int)
    requires 0 <= fileNum < 8
    ensures FileRankSet(fileNum, rankNum) == FileSquares(fileNum as bv6)
    ensures |FileRankSet(fileNum, rankNum)| == 8
  {
    var f := fileNum as bv6;
    forall t: Square ensures t in FileRankSet(fileNum, rankNum) <==> t in FileSquares(f) {
      InAll(t);
      FileOfInt(t, fileNum);
      FileSquaresAt(f, t);
    }
    FileSquaresSize(f);
  }

  /** A rank mask holds exactly the eight squares of that rank. */
  lemma RankMaskSquares(rankNum: int)
    requires 0 <= rankNum < 8
    ensures FileRankSet(-1, rankNum) == RankSquares(rankNum as bv6)
    ensures |FileRankSet(-1, rankNum)| == 8
  {
    var r := rankNum as bv6;
    forall t: Square ensures t in FileRankSet(-1, rankNum) <==> t in RankSquares(r) {
      InAll(t);
      RankOfInt(t, rankNum);
      RankSquaresAt(r, t);
    }
    RankSquaresSize(r);
  }

  /** A file or rank number outside the board, or -1 for both, selects no square. */
  lemma OffBoardEmpty(fileNum: int, rankNum: int)
    requires fileNum != -1 ==> fileNum < 0 || fileNum >= 8
    requires fileNum == -1 ==> rankNum < 0 || rankNum >= 8
    ensures FileRankSet(fileNum, rankNum) == {}
  {
    forall t | t in ALL ensures !Selected(fileNum, rankNum, t) {
      RankFileRange(t);
    }
  }

  /** The squares on file `file` or a neighbouring file. */
  ghost function NearFiles(file: int): set<Square> {
    set t | t in ALL && file - 1 <= FileOf(t) as int <= file + 1
  }

  /** The isolated-pawn mask of a file: the files either side of it. */
  ghost function IsolatedSet(file: int): set<Square> {
    set t | t in ALL && (FileOf(t) as int == file - 1 || FileOf(t) as int == file + 1)
  }

  /** The white passed-pawn mask: same or adjacent file, rows strictly above (smaller rank index). */
  ghost function WhitePassed(rank: int, file: int): set<Square> {
    set t | t in NearFiles(file) && RankOf(t) as int < rank
  }

  /** The black passed-pawn mask: same or adjacent file, rows strictly below (larger rank index). */
  ghost function BlackPassed(rank: int, file: int): set<Square> {
    set t | t in NearFiles(file) && RankOf(t) as int > rank
  }

  lemma IsolatedUnion(file: int)
    ensures FileRankSet(file - 1, -1) + FileRankSet(file + 1, -1) == IsolatedSet(file)
  {
  }

  lemma NearUnion(file: int)
    ensures FileRankSet(file - 1, -1) + FileRankSet(file + 1, -1) + FileRankSet(file, -1) == NearFiles(file)
  {
  }

  /**
   * The isolated mask of an edge file holds one neighbouring file only:
   * the off-board neighbour selects nothing.
   */
  lemma IsolatedFiles(file: int)
    requires 0 <= file < 8
    ensures IsolatedSet(file) ==
      (if file > 0 then FileSquares((file - 1) as bv6) else {}) +
      (if file < 7 then FileSquares((file + 1) as bv6) else {})
  {
    IsolatedUnion(file);
    if file > 0 { FileMaskSquares(file - 1, -1); } else { OffBoardEmpty(file - 1, -1); }
    if file < 7 { FileMaskSquares(file + 1, -1); } else { OffBoardEmpty(file + 1, -1); }
  }

  /** The three-file mask `set_file_rank_mask(file-1) | (file+1) | (file)` both passed masks start from. */
  method NearFilesMask(file: int) returns (m: bv64)
    ensures Squares(m) == NearFiles(file)
  {
    var left := SetFileRankMask(file - 1, -1);
    var right := SetFileRankMask(file + 1, -1);
    var own := SetFileRankMask(file, -1);
    var sides := left | right;
    SquaresOr(left, right);
    m := sides | own;
    SquaresOr(sides, own);
    NearUnion(file);
  }

  /** The RANK_MASKS table: entry s is the mask of the rank of square s. */
  ghost predicate RankMasksTable(a: array<bv64>)
    reads a
  {
    a.Length == 64 && forall s | 0 <= s < 64 :: Squares(a[s]) == FileRankSet(-1, s / 8)
  }

  lemma SquareIndex(rank: int, file: int)
    requires 0 <= rank < 8 && 0 <= file < 8
    ensures 0 <= rank * 8 + file < 64
    ensures (rank * 8 + file) / 8 == rank && (rank * 8 + file) % 8 == file
  {
  }

  /** The RANK_MASKS entry of a square of the given rank. */
  lemma RankMaskAt(a: array<bv64>, rank: int, file: int)
    requires 0 <= rank < 8 && 0 <= file < 8 && RankMasksTable(a)
    ensures 0 <= rank * 8 + file < 64 && Squares(a[rank * 8 + file]) == FileRankSet(-1, rank)
  {
    SquareIndex(rank, file);
  }

  /** Clearing a rank mask from the remaining rows. */
  lemma ClearRank(m: bv64, x: bv64, rows: set<Square>, rank: int)
    requires Squares(m) == rows && Squares(x) == FileRankSet(-1, rank)
    ensures Squares(m & !x) == rows - FileRankSet(-1, rank)
  {
    SquaresNot(x);
    SquaresAnd(m, !x);
  }

  lemma WhitePassedStep(file: int, k: int)
    ensures WhitePassed(k, file) - FileRankSet(-1, k - 1) == WhitePassed(k - 1, file)
  {
  }

  lemma BlackPassedStep(file: int, k: int)
    requires k >= 0
    ensures BlackPassed(k - 1, file) - FileRankSet(-1, k) == BlackPassed(k, file)
  {
  }

  lemma WhitePassedAll(file: int)
    ensures WhitePassed(8, file) == NearFiles(file)
  {
    forall t | t in NearFiles(file) ensures RankOf(t) as int < 8 {
      RankFileRange(t);
    }
  }

  lemma BlackPassedAll(file: int)
    ensures BlackPassed(-1, file) == NearFiles(file)
  {
    forall t | t in NearFiles(file) ensures RankOf(t) as int > -1 {
    }
  }

  /**
   * One entry of WHITE_PASSED_PAWN_MASKS: the three files around the pawn,
   * with the ranks from row 7 down to the pawn's own row cleared through
   * the RANK_MASKS table.
   */
  method WhitePassedPawnMask(rank: int, file: int, rankMasks: array<bv64>) returns (m: bv64)
    requires 0 <= rank < 8 && 0 <= file < 8 && RankMasksTable(rankMasks)
    ensures Squares(m) == WhitePassed(rank, file)
  {
    m := NearFilesMask(file);
    WhitePassedAll(file);
    var i := 0;
    while i < 8 - rank
      invariant 0 <= i <= 8 - rank
      invariant Squares(m) == WhitePassed(8 - i, file)
    {
      RankMaskAt(rankMasks, 7 - i, file);
      var row := rankMasks[(7 - i) * 8 + file];
      ClearRank(m, row, WhitePassed(8 - i, file), 7 - i);
      m := m & !row;
      WhitePassedStep(file, 8 - i);
      i := i + 1;
    }
  }

  /**
   * One entry of BLACK_PASSED_PAWN_MASKS: the three files around the pawn,
   * with the ranks from row 0 up to the pawn's own row cleared.
   */
  method BlackPassedPawnMask(rank: int, file: int, rankMasks: array<bv64>) returns (m: bv64)
    requires 0 <= rank < 8 && 0 <= file < 8 && RankMasksTable(rankMasks)
    ensures Squares(m) == BlackPassed(rank, file)
  {
    m := NearFilesMask(file);
    BlackPassedAll(file);
    var i := 0;
    while i < rank + 1
      invariant 0 <= i <= rank + 1
      invariant Squares(m) == BlackPassed(i - 1, file)
    {
      RankMaskAt(rankMasks, i, file);
      var row := rankMasks[i * 8 + file];
      ClearRank(m, row, BlackPassed(i - 1, file), i);
      m := m & !row;
      BlackPassedStep(file, i);
      i := i + 1;
    }
  }

  /** The same square seen from the other side: the rank index flipped, the file kept. */
  function Flip(t: Square): Square { t ^ 56 }

  lemma FlipRankFile(t: Square)
    ensures RankOf(Flip(t)) == 7 - RankOf(t) && FileOf(Flip(t)) == FileOf(t)
  {
    RankFileRange(t);
  }

  lemma FlipRankInt(t: Square)
    ensures RankOf(Flip(t)) as int == 7 - RankOf(t) as int
    ensures FileOf(Flip(t)) as int == FileOf(t) as int
  {
    FlipRankFile(t);
    RankFileRange(t);
  }

  /**
   * The passed-pawn masks mirror each other: a square lies in the white
   * mask of (rank, file) exactly when its flipped square lies in the black
   * mask of (7 - rank, file).
   */
  lemma PassedMirror(rank: int, file: int, t: Square)
    ensures t in WhitePassed(rank, file) <==> Flip(t) in BlackPassed(7 - rank, file)
  {
    InAll(t);
    InAll(Flip(t));
    FlipRankInt(t);
  }

  /** FILE_MASKS: entry rank * 8 + file is the mask of that file. */
  method FileMasks() returns (masks: array<bv64>)
    ensures masks.Length == 64
    ensures forall s | 0 <= s < 64 :: Squares(masks[s]) == FileRankSet(s % 8, -1)
  {
    masks := new bv64[64];
    var rank := 0;
    while rank < 8
      invariant 0 <= rank <= 8 && masks.Length == 64
      invariant forall s | 0 <= s < rank * 8 :: Squares(masks[s]) == FileRankSet(s % 8, -1)
    {
      var file := 0;
      while file < 8
        invariant 0 <= file <= 8
        invariant forall s | 0 <= s < rank * 8 + file :: Squares(masks[s]) == FileRankSet(s % 8, -1)
      {
        SquareIndex(rank, file);
        masks[rank * 8 + file] := SetFileRankMask(file, -1);
        file := file + 1;
      }
      rank := rank + 1;
    }
  }

  /** RANK_MASKS: entry rank * 8 + file is the mask of that rank. */
  method RankMasks() returns (masks: array<bv64>)
    ensures RankMasksTable(masks)
  {
    masks := new bv64[64];
    var rank := 0;
    while rank < 8
      invariant 0 <= rank <= 8 && masks.Length == 64
      invariant forall s | 0 <= s < rank * 8 :: Squares(masks[s]) == FileRankSet(-1, s / 8)
    {
      var file := 0;
      while file < 8
        invariant 0 <= file <= 8
        invariant forall s | 0 <= s < rank * 8 + file :: Squares(masks[s]) == FileRankSet(-1, s / 8)
      {
        SquareIndex(rank, file);
        masks[rank * 8 + file] := SetFileRankMask(-1, rank);
        file := file + 1;
      }
      rank := rank + 1;
    }
  }

  /** ISOLATED_PAWN_MASKS: entry rank * 8 + file holds the files either side of file. */
  method IsolatedPawnMasks() returns (masks: array<bv64>)
    ensures masks.Length == 64
    ensures forall s | 0 <= s < 64 :: Squares(masks[s]) == IsolatedSet(s % 8)
  {
    masks := new bv64[64];
    var rank := 0;
    while rank < 8
      invariant 0 <= rank <= 8 && masks.Length == 64
      invariant forall s | 0 <= s < rank * 8 :: Squares(masks[s]) == IsolatedSet(s % 8)
    {
      var file := 0;
      while file < 8
        invariant 0 <= file <= 8
        invariant forall s | 0 <= s < rank * 8 + file :: Squares(masks[s]) == IsolatedSet(s % 8)
      {
        SquareIndex(rank, file);
        var left := SetFileRankMask(file - 1, -1);
        var right := SetFileRankMask(file + 1, -1);
        SquaresOr(left, right);
        IsolatedUnion(file);
        masks[rank * 8 + file] := left | right;
        file := file + 1;
      }
      rank := rank + 1;
    }
  }

  /** WHITE_PASSED_PAWN_MASKS, built with the RANK_MASKS table. */
  method WhitePassedPawnMasks(rankMasks: array<bv64>) returns (masks: array<bv64>)
    requires RankMasksTable(rankMasks)
    ensures masks.Length == 64
    ensures forall s | 0 <= s < 64 :: Squares(masks[s]) == WhitePassed(s / 8, s % 8)
  {
    masks := new bv64[64];
    var rank := 0;
    while rank < 8
      invariant 0 <= rank <= 8 && masks.Length == 64 && masks != rankMasks
      invariant forall s | 0 <= s < rank * 8 :: Squares(masks[s]) == WhitePassed(s / 8, s % 8)
    {
      var file := 0;
      while file < 8
        invariant 0 <= file <= 8
        invariant forall s | 0 <= s < rank * 8 + file :: Squares(masks[s]) == WhitePassed(s / 8, s % 8)
      {
        SquareIndex(rank, file);
        var m := WhitePassedPawnMask(rank, file, rankMasks);
        masks[rank * 8 + file] := m;
        file := file + 1;
      }
      rank := rank + 1;
    }
  }

  /** BLACK_PASSED_PAWN_MASKS, built with the RANK_MASKS table. */
  method BlackPassedPawnMasks(rankMasks: array<bv64>) returns (masks: array<bv64>)
    requires RankMasksTable(rankMasks)
    ensures masks.Length == 64
    ensures forall s | 0 <= s < 64 :: Squares(masks[s]) == BlackPassed(s / 8, s % 8)
  {
    masks := new bv64[64];
    var rank := 0;
    while rank < 8
      invariant 0 <= rank <= 8 && masks.Length == 64 && masks != rankMasks
      invariant forall s | 0 <= s < rank * 8 :: Squares(masks[s]) == BlackPassed(s / 8, s % 8)
    {
      var file := 0;
      while file < 8
        invariant 0 <= file <= 8
        invariant forall s | 0 <= s < rank * 8 + file :: Squares(masks[s]) == BlackPassed(s / 8, s % 8)
      {
        SquareIndex(rank, file);
        var m := BlackPassedPawnMask(rank, file, rankMasks);
        masks[rank * 8 + file] := m;
        file := file + 1;
      }
      rank := rank + 1;
    }
  }
}
