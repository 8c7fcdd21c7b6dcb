// The bit-packed move: seven fields in one 32-bit word.
//
//   bits 22..29  from square       bits 14..21  to square
//   bits 10..13  moving piece      bits  6..9   captured piece
//   bit   5      castle flag       bits  1..4   promotion piece
//   bit   0      en-passant flag
//
// Moves are copied freely (into move lists, hash tables and history), so the
// in-place setters are modelled as functions returning the updated move.

module Moves {
  import opened Wrappers
  import opened Bits
  import opened Pieces

  datatype BitPackedMove = BitPackedMove(bits: bv32)

  /** `piece as u32`: the enum discriminant of a piece. */
  function PieceCode(p: Piece): (c: bv32)
    ensures c <= 12
    ensures c as int == Index(p)
  {
    match p
    case WhitePawn => 0
    case WhiteKnight => 1
    case WhiteBishop => 2
    case WhiteRook => 3
    case WhiteQueen => 4
    case WhiteKing => 5
    case BlackPawn => 6
    case BlackKnight => 7
    case BlackBishop => 8
    case BlackRook => 9
    case BlackQueen => 10
    case BlackKing => 11
    case Empty => 12
  }

  lemma PieceCodeInjective(p: Piece, q: Piece)
    requires PieceCode(p) == PieceCode(q)
    ensures p == q
  {
    IndexRoundTrip(p);
    IndexRoundTrip(q);
  }

  // The seven fields, each read through its mask.
  function FromField(m: BitPackedMove): bv32 { (m.bits >> 22) & 0xFF }
  function ToField(m: BitPackedMove): bv32 { (m.bits >> 14) & 0xFF }
  function PieceField(m: BitPackedMove): bv32 { (m.bits >> 10) & 0xF }
  function CaptureField(m: BitPackedMove): bv32 { (m.bits >> 6) & 0xF }
  function CastleField(m: BitPackedMove): bv32 { (m.bits >> 5) & 1 }
  function PromotionField(m: BitPackedMove): bv32 { (m.bits >> 1) & 0xF }
  function EnpassantField(m: BitPackedMove): bv32 { m.bits & 1 }
  /** The two bits above the from field, which no setter touches. */
  function TopBits(m: BitPackedMove): bv32 { m.bits >> 30 }

  /** The getters' panic-free domain, and `bits < 2^30` so that the unmasked from read is exact. */
  predicate WellFormed(m: BitPackedMove) {
    && TopBits(m) == 0
    && FromField(m) < 64 && ToField(m) < 64
    && PieceField(m) <= 12 && CaptureField(m) <= 12 && PromotionField(m) <= 12
  }

  /** Two moves with the same seven fields and top bits are the same move. */
  lemma {:induction false} FieldsDetermineMove(m: BitPackedMove, n: BitPackedMove)
    requires FromField(m) == FromField(n) && ToField(m) == ToField(n)
    requires PieceField(m) == PieceField(n) && CaptureField(m) == CaptureField(n)
    requires CastleField(m) == CastleField(n) && PromotionField(m) == PromotionField(n)
    requires EnpassantField(m) == EnpassantField(n) && TopBits(m) == TopBits(n)
    ensures m == n
  {
  }

  // Getters. `get_from` reads everything above bit 22 without a mask.

  function GetFrom(m: BitPackedMove): Square
    requires m.bits >> 22 < 64
  {
    (m.bits >> 22) as Square
  }

  function GetTo(m: BitPackedMove): Square
    requires ToField(m) < 64
  {
    ToField(m) as Square
  }

  function GetPiece(m: BitPackedMove): Piece
    requires PieceField(m) <= 12
  {
    PieceAt(PieceField(m) as int)
  }

  function GetCapture(m: BitPackedMove): Piece
    requires CaptureField(m) <= 12
  {
    PieceAt(CaptureField(m) as int)
  }

  function GetPromotion(m: BitPackedMove): Piece
    requires PromotionField(m) <= 12
  {
    PieceAt(PromotionField(m) as int)
  }

  /** The unmasked from read equals the from field exactly when the top bits are clear. */
  lemma FromReadExact(m: BitPackedMove)
    ensures m.bits >> 22 == FromField(m) <==> TopBits(m) == 0
  {
  }

  lemma SquareCode(s: Square)
    ensures (s as bv32) as Square == s
    ensures s as bv32 < 64
  {
  }

  lemma PieceOfCode(p: Piece)
    ensures PieceAt(PieceCode(p) as int) == p
  {
    IndexRoundTrip(p);
  }

  // Setters: each writes its own field and keeps the other six and the top bits.

  function SetFrom(m: BitPackedMove, from: Square): (r: BitPackedMove)
    ensures FromField(r) == from as bv32 && TopBits(r) == TopBits(m)
    ensures ToField(r) == ToField(m) && PieceField(r) == PieceField(m)
    ensures CaptureField(r) == CaptureField(m) && CastleField(r) == CastleField(m)
    ensures PromotionField(r) == PromotionField(m) && EnpassantField(r) == EnpassantField(m)
  {
    BitPackedMove((m.bits & !(0xFF << 22)) | ((from as bv32) << 22))
  }

  function SetTo(m: BitPackedMove, to: Square): (r: BitPackedMove)
    ensures ToField(r) == to as bv32 && TopBits(r) == TopBits(m)
    ensures FromField(r) == FromField(m) && PieceField(r) == PieceField(m)
    ensures CaptureField(r) == CaptureField(m) && CastleField(r) == CastleField(m)
    ensures PromotionField(r) == PromotionField(m) && EnpassantField(r) == EnpassantField(m)
  {
    BitPackedMove((m.bits & !(0xFF << 14)) | ((to as bv32) << 14))
  }

  function SetPiece(m: BitPackedMove, p: Piece): (r: BitPackedMove)
    ensures PieceField(r) == PieceCode(p) && TopBits(r) == TopBits(m)
    ensures FromField(r) == FromField(m) && ToField(r) == ToField(m)
    ensures CaptureField(r) == CaptureField(m) && CastleField(r) == CastleField(m)
    ensures PromotionField(r) == PromotionField(m) && EnpassantField(r) == EnpassantField(m)
  {
    BitPackedMove((m.bits & !(0xF << 10)) | (PieceCode(p) << 10))
  }

  function SetCapture(m: BitPackedMove, p: Piece): (r: BitPackedMove)
    ensures CaptureField(r) == PieceCode(p) && TopBits(r) == TopBits(m)
    ensures FromField(r) == FromField(m) && ToField(r) == ToField(m)
    ensures PieceField(r) == PieceField(m) && CastleField(r) == CastleField(m)
    ensures PromotionField(r) == PromotionField(m) && EnpassantField(r) == EnpassantField(m)
  {
    BitPackedMove((m.bits & !(0xF << 6)) | (PieceCode(p) << 6))
  }

  function SetPromotion(m: BitPackedMove, p: Piece): (r: BitPackedMove)
    ensures PromotionField(r) == PieceCode(p) && TopBits(r) == TopBits(m)
    ensures FromField(r) == FromField(m) && ToField(r) == ToField(m)
    ensures PieceField(r) == PieceField(m) && CaptureField(r) == CaptureField(m)
    ensures CastleField(r) == CastleField(m) && EnpassantField(r) == EnpassantField(m)
  {
    BitPackedMove((m.bits & !(0xF << 1)) | (PieceCode(p) << 1))
  }

  function SetCastle(m: BitPackedMove): (r: BitPackedMove)
    ensures CastleField(r) == 1 && TopBits(r) == TopBits(m)
    ensures FromField(r) == FromField(m) && ToField(r) == ToField(m)
    ensures PieceField(r) == PieceField(m) && CaptureField(r) == CaptureField(m)
    ensures PromotionField(r) == PromotionField(m) && EnpassantField(r) == EnpassantField(m)
  {
    BitPackedMove(m.bits | (1 << 5))
  }

  function SetEnpassant(m: BitPackedMove): (r: BitPackedMove)
    ensures EnpassantField(r) == 1 && TopBits(r) == TopBits(m)
    ensures FromField(r) == FromField(m) && ToField(r) == ToField(m)
    ensures PieceField(r) == PieceField(m) && CaptureField(r) == CaptureField(m)
    ensures CastleField(r) == CastleField(m) && PromotionField(r) == PromotionField(m)
  {
    BitPackedMove(m.bits | 1)
  }

  // Flags.

  predicate IsCapture(m: BitPackedMove) { CaptureField(m) != PieceCode(Empty) }
  predicate IsPromotion(m: BitPackedMove) { PromotionField(m) != PieceCode(Empty) }
  predicate IsCastle(m: BitPackedMove) { CastleField(m) == 1 }
  predicate IsEnpassant(m: BitPackedMove) { EnpassantField(m) == 1 }

  /** The capture and promotion flags say whether the corresponding piece is not Empty. */
  lemma FlagsMatchPieces(m: BitPackedMove)
    requires WellFormed(m)
    ensures IsCapture(m) <==> GetCapture(m) != Empty
    ensures IsPromotion(m) <==> GetPromotion(m) != Empty
  {
    PieceOfCode(Empty);
  }

  /** A setter writes a value that its getter reads back. */
  lemma SetterRoundTrip(m: BitPackedMove, s: Square, p: Piece)
    ensures TopBits(m) == 0 ==> GetFrom(SetFrom(m, s)) == s
    ensures GetTo(SetTo(m, s)) == s
    ensures GetPiece(SetPiece(m, p)) == p
    ensures GetCapture(SetCapture(m, p)) == p
    ensures GetPromotion(SetPromotion(m, p)) == p
    ensures IsCastle(SetCastle(m)) && IsEnpassant(SetEnpassant(m))
  {
    SquareCode(s);
    PieceOfCode(p);
    if TopBits(m) == 0 {
      FromReadExact(SetFrom(m, s));
    }
  }

  /** The square setters keep a well-formed move well-formed, so bits stay below 2^30. */
  lemma SquareSettersKeepWellFormed(m: BitPackedMove, s: Square)
    requires WellFormed(m)
    ensures WellFormed(SetFrom(m, s)) && WellFormed(SetTo(m, s))
  {
    SquareCode(s);
  }

  /** The piece setters keep a well-formed move well-formed. */
  lemma PieceSettersKeepWellFormed(m: BitPackedMove, p: Piece)
    requires WellFormed(m)
    ensures WellFormed(SetPiece(m, p)) && WellFormed(SetCapture(m, p))
    ensures WellFormed(SetPromotion(m, p))
  {
    var c := PieceCode(p);
    assert c <= 12;
    var a, b, d := SetPiece(m, p), SetCapture(m, p), SetPromotion(m, p);
    assert PieceField(a) == c && CaptureField(b) == c && PromotionField(d) == c;
  }

  /** The flag setters keep a well-formed move well-formed. */
  lemma FlagSettersKeepWellFormed(m: BitPackedMove)
    requires WellFormed(m)
    ensures WellFormed(SetCastle(m)) && WellFormed(SetEnpassant(m))
  {
  }

  lemma SetFlagsIdempotent(m: BitPackedMove)
    ensures SetCastle(SetCastle(m)) == SetCastle(m)
    ensures SetEnpassant(SetEnpassant(m)) == SetEnpassant(m)
  {
    FieldsDetermineMove(SetCastle(SetCastle(m)), SetCastle(m));
    FieldsDetermineMove(SetEnpassant(SetEnpassant(m)), SetEnpassant(m));
  }

  /** The basic move: from, to and piece set, capture and promotion Empty, no flags. */
  function New(from: Square, to: Square, piece: Piece): (r: BitPackedMove)
    ensures WellFormed(r)
    ensures GetFrom(r) == from && GetTo(r) == to && GetPiece(r) == piece
    ensures GetCapture(r) == Empty && GetPromotion(r) == Empty
    ensures !IsCapture(r) && !IsPromotion(r) && !IsCastle(r) && !IsEnpassant(r)
  {
    var m0 := BitPackedMove(0);
    var m1 := SetFrom(m0, from);
    var m2 := SetTo(m1, to);
    var m3 := SetPiece(m2, piece);
    var m4 := SetPromotion(m3, Empty);
    var r := SetCapture(m4, Empty);
    SquareCode(from);
    SquareCode(to);
    PieceOfCode(piece);
    PieceOfCode(Empty);
    FromReadExact(r);
    r
  }

  /** The null move: squares 0, Empty pieces, no flags. */
  function Default(): (r: BitPackedMove)
    ensures WellFormed(r)
    ensures GetFrom(r) == 0 && GetTo(r) == 0
    ensures GetPiece(r) == Empty && GetCapture(r) == Empty && GetPromotion(r) == Empty
    ensures !IsCapture(r) && !IsPromotion(r) && !IsCastle(r) && !IsEnpassant(r)
  {
    var m0 := BitPackedMove(0);
    var r := SetCapture(SetPromotion(SetPiece(m0, Empty), Empty), Empty);
    PieceOfCode(Empty);
    FromReadExact(r);
    r
  }

  /** Lower-case name of a square: file letter, then rank digit (square 0 is a8). */
  function SquareName(s: Square): (name: string)
    ensures |name| == 2
    ensures 'a' <= name[0] <= 'h' && '1' <= name[1] <= '8'
  {
    var i := s as int;
    [('a' as int + i % 8) as char, ('8' as int - i / 8) as char]
  }

  lemma SquareNameInjective(s: Square, t: Square)
    requires SquareName(s) == SquareName(t)
    ensures s == t
  {
    var i, j := s as int, t as int;
    assert i % 8 == j % 8 && i / 8 == j / 8;
    SameDivMod(i, j);
  }

  lemma SameDivMod(i: int, j: int)
    requires i % 8 == j % 8 && i / 8 == j / 8
    ensures i == j
  {
  }

  /**
   * The square a lower-case algebraic name denotes: a file letter a..h and
   * a rank digit 1..8; anything else names no square.
   */
  function SquareOfName(name: string): (r: Option<Square>)
    ensures r.Some? ==> SquareName(r.value) == name
    ensures r.Some? <==> |name| == 2 && 'a' <= name[0] <= 'h' && '1' <= name[1] <= '8'
  {
    if |name| == 2 && 'a' <= name[0] <= 'h' && '1' <= name[1] <= '8' then
      var f := name[0] as int - 'a' as int;
      var r := '8' as int - name[1] as int;
      var i := f + 8 * r;
      IndexSquare(i);
      assert i % 8 == f && i / 8 == r;
      Some(i as Square)
    else None
  }

  /** Every square's name reads back as that square. */
  lemma SquareNameParses(s: Square)
    ensures SquareOfName(SquareName(s)) == Some(s)
  {
    SquareIndex(s);
    var r := SquareOfName(SquareName(s));
    SquareNameInjective(r.value, s);
  }

  /** ASCII lower-casing of a piece letter. */
  function Lower(c: char): (l: char)
    ensures 'a' <= l <= 'z' <==> 'a' <= c <= 'z' || 'A' <= c <= 'Z'
  {
    if 'A' <= c <= 'Z' then (c as int + 32) as char else c
  }

  /** The UCI text of a move: from, to, and the lower-case promotion letter when promoting. */
  function ToUci(m: BitPackedMove): (s: string)
    requires WellFormed(m)
    ensures |s| == (if IsPromotion(m) then 5 else 4)
    ensures s[..2] == SquareName(GetFrom(m)) && s[2..4] == SquareName(GetTo(m))
  {
    FromReadExact(m);
    SquareName(GetFrom(m)) + SquareName(GetTo(m))
      + (if IsPromotion(m) then [Lower(Char(GetPromotion(m)))] else [])
  }

  /** Same piece kind, either colour. */
  predicate SameKind(p: Piece, q: Piece) {
    Index(p) % 6 == Index(q) % 6 && p != Empty && q != Empty
  }

  /**
   * Two moves with the same UCI text have the same squares and the same
   * promotion status, and promote to the same kind of piece; the text does
   * not say the promotion piece's colour.
   */
  lemma UciDetermines(m: BitPackedMove, n: BitPackedMove)
    requires WellFormed(m) && WellFormed(n)
    requires ToUci(m) == ToUci(n)
    ensures GetFrom(m) == GetFrom(n) && GetTo(m) == GetTo(n)
    ensures IsPromotion(m) == IsPromotion(n)
    ensures IsPromotion(m) ==> SameKind(GetPromotion(m), GetPromotion(n))
  {
    FromReadExact(m);
    FromReadExact(n);
    var s, t := ToUci(m), ToUci(n);
    assert s[..2] == t[..2] && s[2..4] == t[2..4];
    SquareNameInjective(GetFrom(m), GetFrom(n));
    SquareNameInjective(GetTo(m), GetTo(n));
    if IsPromotion(m) {
      assert s[4] == t[4];
      PieceOfCode(Empty);
      LowerCharKind(GetPromotion(m), GetPromotion(n));
    }
  }

  lemma LowerCharKind(p: Piece, q: Piece)
    requires p != Empty && q != Empty
    requires Lower(Char(p)) == Lower(Char(q))
    ensures SameKind(p, q)
  {
  }

  /** A move with a priority; comparisons look at the priority only. */
  datatype PrioritizedMove = PrioritizedMove(priority: nat, m: BitPackedMove)

  predicate PriorityEq(a: PrioritizedMove, b: PrioritizedMove) { a.priority == b.priority }

  /** Three-way comparison by priority: -1, 0 or 1. */
  function Compare(a: PrioritizedMove, b: PrioritizedMove): (c: int)
    ensures c == 0 <==> PriorityEq(a, b)
    ensures c == -1 <==> a.priority < b.priority
    ensures c == 1 <==> a.priority > b.priority
  {
    if a.priority < b.priority then -1 else if a.priority > b.priority then 1 else 0
  }

  /** The comparison is a total preorder that ignores the move. */
  lemma CompareIsOrder(a: PrioritizedMove, b: PrioritizedMove, c: PrioritizedMove)
    ensures Compare(a, b) == -Compare(b, a)
    ensures Compare(a, b) <= 0 && Compare(b, c) <= 0 ==> Compare(a, c) <= 0
    ensures Compare(a, b) == Compare(PrioritizedMove(a.priority, b.m), PrioritizedMove(b.priority, a.m))
  {
  }

  function NewPrioritized(m: BitPackedMove, priority: nat): (r: PrioritizedMove)
    ensures r.m == m && r.priority == priority
  {
    PrioritizedMove(priority, m)
  }

  function DefaultPrioritized(): (r: PrioritizedMove)
    ensures r.priority == 0 && r.m == Default()
  {
    PrioritizedMove(0, Default())
  }
}
