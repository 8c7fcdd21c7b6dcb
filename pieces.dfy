// Colours and pieces: the two small enums every other part of the engine
// indexes its tables with, and their char and index conversions.

module Colors {
  import opened Wrappers

  datatype Color = White | Black

  /** The opposite colour (the `!` operator). */
  function Not(c: Color): (r: Color)
    ensures r != c
  {
    match c
    case White => Black
    case Black => White
  }

  lemma NotInvolution(c: Color)
    ensures Not(Not(c)) == c
  {
  }

  /** Index of a colour into per-colour tables: White is 0, Black is 1. */
  function Index(c: Color): (i: nat)
    ensures i < 2
    ensures i == 0 <==> c == White
  {
    match c
    case White => 0
    case Black => 1
  }

  /** Side-to-move letter of a FEN record; anything but 'w' or 'b' is an error. */
  function FromChar(ch: char): (r: Result<Color>)
    ensures r.Ok? <==> ch == 'w' || ch == 'b'
    ensures r.Ok? ==> (r.value == White <==> ch == 'w')
  {
    match ch
    case 'w' => Ok(White)
    case 'b' => Ok(Black)
    case _ => Err("Invalid color")
  }
}

module Pieces {
  import opened Wrappers
  import opened Colors

  datatype Piece =
    | WhitePawn | WhiteKnight | WhiteBishop | WhiteRook | WhiteQueen | WhiteKing
    | BlackPawn | BlackKnight | BlackBishop | BlackRook | BlackQueen | BlackKing
    | Empty

  predicate IsWhite(p: Piece) {
    p in {WhitePawn, WhiteKnight, WhiteBishop, WhiteRook, WhiteQueen, WhiteKing}
  }

  predicate IsBlack(p: Piece) {
    p in {BlackPawn, BlackKnight, BlackBishop, BlackRook, BlackQueen, BlackKing}
  }

  predicate IsEmpty(p: Piece) { p == Empty }
  predicate IsPawn(p: Piece) { p == WhitePawn || p == BlackPawn }
  predicate IsKnight(p: Piece) { p == WhiteKnight || p == BlackKnight }
  predicate IsBishop(p: Piece) { p == WhiteBishop || p == BlackBishop }
  predicate IsRook(p: Piece) { p == WhiteRook || p == BlackRook }
  predicate IsQueen(p: Piece) { p == WhiteQueen || p == BlackQueen }
  predicate IsKing(p: Piece) { p == WhiteKing || p == BlackKing }

  /** Bishops, rooks and queens: the pieces that move along rays. */
  predicate IsSlider(p: Piece)
    ensures IsSlider(p) <==> IsBishop(p) || IsRook(p) || IsQueen(p)
  {
    match p
    case WhiteBishop | BlackBishop | WhiteRook | BlackRook | WhiteQueen | BlackQueen => true
    case _ => false
  }

  /** Every piece is white, black or Empty, and exactly one of them. */
  lemma ColorExclusive(p: Piece)
    ensures !(IsWhite(p) && IsBlack(p))
    ensures IsWhite(p) || IsBlack(p) <==> !IsEmpty(p)
  {
  }

  /** Every non-Empty piece has exactly one kind; Empty has none. */
  lemma KindExclusive(p: Piece)
    ensures IsEmpty(p) ==> !(IsPawn(p) || IsKnight(p) || IsBishop(p) || IsRook(p) || IsQueen(p) || IsKing(p))
    ensures !IsEmpty(p) ==>
      (if IsPawn(p) then 1 else 0) + (if IsKnight(p) then 1 else 0) + (if IsBishop(p) then 1 else 0)
      + (if IsRook(p) then 1 else 0) + (if IsQueen(p) then 1 else 0) + (if IsKing(p) then 1 else 0) == 1
  {
  }

  /** FEN letter of a piece: upper case for White, lower case for Black, '.' for Empty. */
  function Char(p: Piece): (c: char)
    ensures 'A' <= c <= 'Z' <==> IsWhite(p)
    ensures 'a' <= c <= 'z' <==> IsBlack(p)
    ensures c == '.' <==> IsEmpty(p)
  {
    match p
    case BlackPawn => 'p'
    case BlackKnight => 'n'
    case BlackBishop => 'b'
    case BlackRook => 'r'
    case BlackQueen => 'q'
    case BlackKing => 'k'
    case WhitePawn => 'P'
    case WhiteKnight => 'N'
    case WhiteBishop => 'B'
    case WhiteRook => 'R'
    case WhiteQueen => 'Q'
    case WhiteKing => 'K'
    case Empty => '.'
  }

  /** Parses a FEN piece letter; any char outside "pnbrqkPNBRQK." is an error. */
  function FromChar(c: char): (r: Result<Piece>)
    ensures r.Ok? <==> c in "pnbrqkPNBRQK."
    ensures r.Ok? ==> Char(r.value) == c
  {
    match c
    case 'p' => Ok(BlackPawn)
    case 'n' => Ok(BlackKnight)
    case 'b' => Ok(BlackBishop)
    case 'r' => Ok(BlackRook)
    case 'q' => Ok(BlackQueen)
    case 'k' => Ok(BlackKing)
    case 'P' => Ok(WhitePawn)
    case 'N' => Ok(WhiteKnight)
    case 'B' => Ok(WhiteBishop)
    case 'R' => Ok(WhiteRook)
    case 'Q' => Ok(WhiteQueen)
    case 'K' => Ok(WhiteKing)
    case '.' => Ok(Empty)
    case _ => Err("Invalid piece")
  }

  lemma CharRoundTrip(p: Piece)
    ensures FromChar(Char(p)) == Ok(p)
  {
  }

  /** Index into the per-piece bitboard array: white pieces 0..5, black 6..11, Empty 12. */
  function Index(p: Piece): (i: nat)
    ensures i <= 12
    ensures i < 6 <==> IsWhite(p)
    ensures 6 <= i < 12 <==> IsBlack(p)
  {
    match p
    case WhitePawn => 0
    case WhiteKnight => 1
    case WhiteBishop => 2
    case WhiteRook => 3
    case WhiteQueen => 4
    case WhiteKing => 5
    case BlackPawn => 6
    case BlackKnight => 7
    case BlackBishop => 8
    case BlackRook => 9
    case BlackQueen => 10
    case BlackKing => 11
    case Empty => 12
  }

  /** Piece with a given index; indices above 12 are an error. */
  function FromIndex(i: nat): (r: Result<Piece>)
    ensures r.Ok? <==> i <= 12
    ensures r.Ok? ==> Index(r.value) == i
  {
    match i
    case 0 => Ok(WhitePawn)
    case 1 => Ok(WhiteKnight)
    case 2 => Ok(WhiteBishop)
    case 3 => Ok(WhiteRook)
    case 4 => Ok(WhiteQueen)
    case 5 => Ok(WhiteKing)
    case 6 => Ok(BlackPawn)
    case 7 => Ok(BlackKnight)
    case 8 => Ok(BlackBishop)
    case 9 => Ok(BlackRook)
    case 10 => Ok(BlackQueen)
    case 11 => Ok(BlackKing)
    case 12 => Ok(Empty)
    case _ => Err("Invalid piece")
  }

  lemma IndexRoundTrip(p: Piece)
    ensures FromIndex(Index(p)) == Ok(p)
  {
  }

  /** The piece with index `i`, for callers that know `i` is in range. */
  function PieceAt(i: nat): (p: Piece)
    requires i <= 12
    ensures Index(p) == i
  {
    FromIndex(i).value
  }

  /** The twelve real pieces, black pawn first and white king last. */
  const PIECE_ITER: seq<Piece> := [
    BlackPawn, BlackKnight, BlackBishop, BlackRook, BlackQueen, BlackKing,
    WhitePawn, WhiteKnight, WhiteBishop, WhiteRook, WhiteQueen, WhiteKing
  ]

  lemma PieceIterComplete()
    ensures |PIECE_ITER| == 12
    ensures forall p :: p in PIECE_ITER <==> !IsEmpty(p)
    ensures forall i, j :: 0 <= i < j < |PIECE_ITER| ==> PIECE_ITER[i] != PIECE_ITER[j]
  {
  }

  /** Colour of a real piece. */
  function ColorOf(p: Piece): (c: Color)
    requires !IsEmpty(p)
    ensures c == White <==> IsWhite(p)
  {
    if Index(p) < 6 then White else Black
  }
}
