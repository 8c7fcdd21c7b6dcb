/**
 * FEN text (section 16.1 of the PGN standard) as the engine writes and reads
 * it: the piece placement, run-length encoded rank by rank from the 8th rank
 * down, then the side to move, the castling letters in KQkq order, the
 * en-passant square, and the two move counters, separated by single spaces.
 * The writer and the reader are proved inverse on well-formed positions.
 */
module Fen {
  import opened Wrappers
  import opened Bits
  import Colors
  import opened Pieces
  import opened Castling
  import opened Moves
  import opened Board

  // ---------------------------------------------------------------------
  // Decimal numbers
  // ---------------------------------------------------------------------

  predicate IsDigit(c: char) { '0' <= c <= '9' }

  function DigitChar(d: nat): (c: char)
    requires d < 10
    ensures IsDigit(c)
  {
    (48 + d) as char
  }

  function DigitValue(c: char): (d: nat)
    requires IsDigit(c)
    ensures d < 10 && DigitChar(d) == c
  {
    c as int - 48
  }

  /** `to_string` of an unsigned integer: its decimal digits, most significant first. */
  function NatText(n: nat): (s: string)
    ensures 0 < |s| && forall i | 0 <= i < |s| :: IsDigit(s[i])
    decreases n
  {
    if n < 10 then [DigitChar(n)] else NatText(n / 10) + [DigitChar(n % 10)]
  }

  predicate AllDigits(s: string) { forall i | 0 <= i < |s| :: IsDigit(s[i]) }

  /** The value of a string of decimal digits. */
  function DigitsValue(s: string): nat
    requires AllDigits(s)
  {
    if |s| == 0 then 0 else DigitsValue(s[..|s| - 1]) * 10 + DigitValue(s[|s| - 1])
  }

  const U32_LIMIT: nat := 0x1_0000_0000

  /**
   * `str::parse::<u32>`: an optional '+', then one or more decimal digits
   * whose value fits in 32 bits; anything else is an error.
   */
  function ParseU32(s: string): (r: Option<nat>)
    ensures r.Some? ==> r.value < U32_LIMIT
  {
    var digits := if 0 < |s| && s[0] == '+' then s[1..] else s;
    if |digits| == 0 || !AllDigits(digits) then None
    else if DigitsValue(digits) < U32_LIMIT then Some(DigitsValue(digits))
    else None
  }

  lemma {:induction false} NatTextValue(n: nat)
    ensures DigitsValue(NatText(n)) == n
    decreases n
  {
    var s := NatText(n);
    if n >= 10 {
      NatTextValue(n / 10);
      assert s[..|s| - 1] == NatText(n / 10);
    }
  }

  /** Printing a 32-bit counter and parsing it back gives the counter. */
  lemma NatTextParses(n: nat)
    requires n < U32_LIMIT
    ensures ParseU32(NatText(n)) == Some(n)
  {
    NatTextValue(n);
  }

  // ---------------------------------------------------------------------
  // Splitting on spaces
  // ---------------------------------------------------------------------

  /** `str::split(' ')`: the pieces between separators, empty ones included. */
  function Split(s: string, sep: char): (parts: seq<string>)
    ensures 0 < |parts|
  {
    if |s| == 0 then [""]
    else
      var rest := Split(s[1..], sep);
      if s[0] == sep then [""] + rest else [[s[0]] + rest[0]] + rest[1..]
  }

  lemma {:induction false} SplitJoin(a: string, sep: char, b: string)
    requires sep !in a
    ensures Split(a + [sep] + b, sep) == [a] + Split(b, sep)
    decreases |a|
  {
    if |a| == 0 {
      assert a + [sep] + b == [sep] + b;
      assert ([sep] + b)[1..] == b;
    } else {
      SplitJoin(a[1..], sep, b);
      assert (a + [sep] + b)[1..] == a[1..] + [sep] + b;
      assert [a[0]] + a[1..] == a;
    }
  }

  lemma {:induction false} SplitNone(a: string, sep: char)
    requires sep !in a
    ensures Split(a, sep) == [a]
    decreases |a|
  {
    if |a| != 0 {
      SplitNone(a[1..], sep);
      assert [a[0]] + a[1..] == a;
    }
  }

  // ---------------------------------------------------------------------
  // Piece placement
  // ---------------------------------------------------------------------

  /** What `as_fen` sees on a square: nothing, or the piece the lookup reports. */
  function Cell(b: seq<bv64>, occ: seq<bv64>, s: Square): Option<Piece>
    requires |b| == 12 && |occ| == 3
  {
    if Bit(occ[2], s) then Some(PieceOn(b, occ, s)) else None
  }

  function Cells(b: seq<bv64>, occ: seq<bv64>): (cells: seq<Option<Piece>>)
    requires |b| == 12 && |occ| == 3
    ensures |cells| == 64
  {
    seq(64, i requires 0 <= i < 64 => Cell(b, occ, i as Square))
  }

  /** A count of empty squares as text: nothing for none. */
  function EmptyText(n: nat): string {
    if n == 0 then "" else NatText(n)
  }

  /**
   * The placement text from square i on, with `empty` empty squares
   * pending: a rank boundary flushes the count and writes '/', an empty
   * square adds to the count, a piece flushes it and writes its letter.
   */
  function PlacementFrom(cells: seq<Option<Piece>>, i: nat, empty: nat): string
    requires |cells| == 64 && i <= 64
    decreases 64 - i
  {
    if i == 64 then EmptyText(empty)
    else
      var boundary := i % 8 == 0 && i != 0;
      var pre := if boundary then EmptyText(empty) + "/" else "";
      var pending := if boundary then 0 else empty;
      match cells[i]
      case None => pre + PlacementFrom(cells, i + 1, pending + 1)
      case Some(p) => pre + EmptyText(pending) + [Char(p)] + PlacementFrom(cells, i + 1, 0)
  }

  function Placement(cells: seq<Option<Piece>>): string
    requires |cells| == 64
  {
    PlacementFrom(cells, 0, 0)
  }

  /**
   * The `set_fen` placement loop from position `pos` on: '/' is skipped, a
   * digit advances the position, a piece letter sets its square on its
   * board and advances by one.  The engine panics (here an error) on a
   * letter that is not a piece, on '.', whose index is past the boards, on
   * a square past h1, and when the u8 position overflows.
   */
  function DecodeFrom(text: string, pos: nat, b: seq<bv64>): (r: Result<seq<bv64>>)
    requires |b| == 12
    ensures r.Ok? ==> |r.value| == 12
    decreases |text|
  {
    if |text| == 0 then Ok(b)
    else
      var c := text[0];
      if c == '/' then DecodeFrom(text[1..], pos, b)
      else if IsDigit(c) then
        if pos + DigitValue(c) < 256 then DecodeFrom(text[1..], pos + DigitValue(c), b) else Err("position overflow")
      else match FromChar(c)
        case Err(e) => Err(e)
        case Ok(p) =>
          if p == Empty then Err("no board for '.'")
          else if pos >= 64 then Err("square out of range")
          else DecodeFrom(text[1..], pos + 1, b[Index(p) := SetBit(b[Index(p)], pos as Square)])
  }

  /** A decodable text's next letter is a piece with a board, read at a square on the board. */
  lemma DecodeLetter(text: string, pos: nat, b: seq<bv64>)
    requires |b| == 12 && |text| > 0 && text[0] != '/' && !IsDigit(text[0])
    requires DecodeFrom(text, pos, b).Ok?
    ensures FromChar(text[0]).Ok? && FromChar(text[0]).value != Empty && pos < 64
    ensures var p := FromChar(text[0]).value;
            DecodeFrom(text, pos, b) == DecodeFrom(text[1..], pos + 1, b[Index(p) := SetBit(b[Index(p)], pos as Square)])
  {
  }

  function Zeros(): (b: seq<bv64>)
    ensures |b| == 12 && forall i | 0 <= i < 12 :: b[i] == 0
  {
    [0, 0, 0, 0, 0, 0, 0, 0, 0, 0, 0, 0]
  }

  /** The boards with every piece of `cells` from square i on added to `acc`. */
  function PlaceAll(cells: seq<Option<Piece>>, i: nat, acc: seq<bv64>): (r: seq<bv64>)
    requires |cells| == 64 && i <= 64 && |acc| == 12
    requires forall j | 0 <= j < 64 :: cells[j] != Some(Empty)
    ensures |r| == 12
    decreases 64 - i
  {
    if i == 64 then acc
    else match cells[i]
      case None => PlaceAll(cells, i + 1, acc)
      case Some(p) => PlaceAll(cells, i + 1, acc[Index(p) := SetBit(acc[Index(p)], i as Square)])
  }

  /** The pending count never exceeds the squares passed on the current rank (8 at a boundary). */
  predicate EmptyBound(i: nat, e: nat) {
    e <= i && e <= 8 && (i % 8 != 0 ==> e <= i % 8)
  }

  lemma EmptyDigit(n: nat)
    requires 0 < n < 10
    ensures EmptyText(n) == [DigitChar(n)]
  {
  }

  /** Reading a pending count (at most 8) moves the position over the empty squares. */
  lemma DecodeEmpty(n: nat, rest: string, pos: nat, b: seq<bv64>)
    requires |b| == 12 && n <= 8 && pos + n < 256
    ensures DecodeFrom(EmptyText(n) + rest, pos, b) == DecodeFrom(rest, pos + n, b)
  {
    if n != 0 {
      EmptyDigit(n);
      assert (EmptyText(n) + rest)[1..] == rest;
    } else {
      assert EmptyText(n) + rest == rest;
    }
  }

  /**
   * Decoding the placement text written from square i (with e empty squares
   * pending, so that the reader stands at i - e) places exactly the pieces
   * from square i on.
   */
  lemma {:induction false} DecodePlacementFrom(cells: seq<Option<Piece>>, i: nat, e: nat, acc: seq<bv64>)
    requires |cells| == 64 && i <= 64 && |acc| == 12 && EmptyBound(i, e)
    requires forall j | 0 <= j < 64 :: cells[j] != Some(Empty)
    ensures DecodeFrom(PlacementFrom(cells, i, e), i - e, acc) == Ok(PlaceAll(cells, i, acc))
    decreases 64 - i
  {
    if i == 64 {
      DecodeEmpty(e, "", i - e, acc);
      assert EmptyText(e) + "" == EmptyText(e);
    } else {
      var pending := if i % 8 == 0 && i != 0 then 0 else e;
      match cells[i]
      case None =>
        EmptyBoundStep(i, e);
        DecodePlacementFrom(cells, i + 1, pending + 1, acc);
        DecodeEmptyCell(cells, i, e, acc);
      case Some(p) =>
        var acc' := acc[Index(p) := SetBit(acc[Index(p)], i as Square)];
        DecodePlacementFrom(cells, i + 1, 0, acc');
        DecodePieceCell(cells, i, e, acc, p);
    }
  }

  /** An empty square adds one to the pending count, restarted at a rank boundary. */
  lemma EmptyBoundStep(i: nat, e: nat)
    requires i < 64 && EmptyBound(i, e)
    ensures EmptyBound(i + 1, (if i % 8 == 0 && i != 0 then 0 else e) + 1)
  {
  }

  /** The step of DecodePlacementFrom over an empty square. */
  lemma DecodeEmptyCell(cells: seq<Option<Piece>>, i: nat, e: nat, acc: seq<bv64>)
    requires |cells| == 64 && i < 64 && |acc| == 12 && EmptyBound(i, e) && cells[i].None?
    requires forall j | 0 <= j < 64 :: cells[j] != Some(Empty)
    requires var pending := if i % 8 == 0 && i != 0 then 0 else e;
             DecodeFrom(PlacementFrom(cells, i + 1, pending + 1), i - pending, acc) == Ok(PlaceAll(cells, i + 1, acc))
    ensures DecodeFrom(PlacementFrom(cells, i, e), i - e, acc) == Ok(PlaceAll(cells, i, acc))
  {
    var boundary := i % 8 == 0 && i != 0;
    var pre := if boundary then EmptyText(e) + "/" else "";
    var rest := PlacementFrom(cells, i + 1, if boundary then 1 else e + 1);
    assert PlacementFrom(cells, i, e) == pre + rest;
    DecodePre(e, boundary, rest, i, acc);
  }

  /** The step of DecodePlacementFrom over a square holding p. */
  lemma DecodePieceCell(cells: seq<Option<Piece>>, i: nat, e: nat, acc: seq<bv64>, p: Piece)
    requires |cells| == 64 && i < 64 && |acc| == 12 && EmptyBound(i, e) && cells[i] == Some(p) && p != Empty
    requires forall j | 0 <= j < 64 :: cells[j] != Some(Empty)
    requires DecodeFrom(PlacementFrom(cells, i + 1, 0), i + 1, acc[Index(p) := SetBit(acc[Index(p)], i as Square)])
             == Ok(PlaceAll(cells, i + 1, acc[Index(p) := SetBit(acc[Index(p)], i as Square)]))
    ensures DecodeFrom(PlacementFrom(cells, i, e), i - e, acc) == Ok(PlaceAll(cells, i, acc))
  {
    var boundary := i % 8 == 0 && i != 0;
    var pending := if boundary then 0 else e;
    var pre := if boundary then EmptyText(e) + "/" else "";
    var rest := PlacementFrom(cells, i + 1, 0);
    assert PlacementFrom(cells, i, e) == pre + EmptyText(pending) + [Char(p)] + rest;
    DecodePieceText(pre, pending, p, rest, boundary, i, e, acc);
  }

  /** Reading a square's flushed count, '/', pending count and piece letter, then the rest. */
  lemma DecodePieceText(pre: string, pending: nat, p: Piece, rest: string, boundary: bool, i: nat, e: nat, acc: seq<bv64>)
    requires |acc| == 12 && p != Empty && i < 64 && e <= 8 && e <= i && pending <= 8
    requires pending == (if boundary then 0 else e) && pre == (if boundary then EmptyText(e) + "/" else "")
    ensures DecodeFrom(pre + EmptyText(pending) + [Char(p)] + rest, i - e, acc)
            == DecodeFrom(rest, i + 1, acc[Index(p) := SetBit(acc[Index(p)], i as Square)])
  {
    var body := EmptyText(pending) + ([Char(p)] + rest);
    assert pre + EmptyText(pending) + [Char(p)] + rest == pre + body;
    calc {
      DecodeFrom(pre + body, i - e, acc);
      { DecodePre(e, boundary, body, i, acc); }
      DecodeFrom(body, i - pending, acc);
      { DecodeEmpty(pending, [Char(p)] + rest, i - pending, acc); }
      DecodeFrom([Char(p)] + rest, i, acc);
      { DecodePiece(p, rest, i, acc); }
      DecodeFrom(rest, i + 1, acc[Index(p) := SetBit(acc[Index(p)], i as Square)]);
    }
  }

  /** The text before square i's own output: a flushed count and '/' at a rank boundary. */
  lemma DecodePre(e: nat, boundary: bool, rest: string, i: nat, acc: seq<bv64>)
    requires |acc| == 12 && e <= 8 && e <= i && i < 64
    ensures boundary ==>
      DecodeFrom((EmptyText(e) + "/") + rest, i - e, acc) == DecodeFrom(rest, i, acc)
    ensures !boundary ==> DecodeFrom("" + rest, i - e, acc) == DecodeFrom(rest, i - e, acc)
  {
    if boundary {
      assert (EmptyText(e) + "/") + rest == EmptyText(e) + ("/" + rest);
      DecodeEmpty(e, "/" + rest, i - e, acc);
      assert ("/" + rest)[1..] == rest;
    } else {
      assert "" + rest == rest;
    }
  }

  /** A piece letter at position i < 64 sets square i on the piece's board. */
  lemma DecodePiece(p: Piece, rest: string, i: nat, acc: seq<bv64>)
    requires |acc| == 12 && p != Empty && i < 64
    ensures DecodeFrom([Char(p)] + rest, i, acc)
            == DecodeFrom(rest, i + 1, acc[Index(p) := SetBit(acc[Index(p)], i as Square)])
  {
    CharRoundTrip(p);
    assert ([Char(p)] + rest)[1..] == rest;
  }

  /** Square t of `cells` holds a piece whose board is k. */
  predicate Holds(cells: seq<Option<Piece>>, t: Square, k: nat)
    requires |cells| == 64
  {
    cells[t as int].Some? && Index(cells[t as int].value) == k
  }

  /** The squares from i on whose piece belongs on board k. */
  ghost function HoldersFrom(cells: seq<Option<Piece>>, i: nat, k: nat): set<Square>
    requires |cells| == 64
  {
    set t | t in ALL && i <= t as int && Holds(cells, t, k)
  }

  lemma HoldersStep(cells: seq<Option<Piece>>, i: nat, k: nat)
    requires |cells| == 64 && i < 64
    ensures HoldersFrom(cells, i, k)
            == HoldersFrom(cells, i + 1, k) + (if Holds(cells, i as Square, k) then {i as Square} else {})
  {
    var sq := i as Square;
    IndexSquare(i);
    InAll(sq);
    forall t: Square | t in HoldersFrom(cells, i, k) && t !in HoldersFrom(cells, i + 1, k)
      ensures t == sq
    {
      assert t as int == i;
    }
  }

  /** The placement text at an empty square: the flush at a rank boundary, then the rest with one more pending. */
  lemma PlacementEmptySquare(cells: seq<Option<Piece>>, i: nat, e: nat, pre: string, pending: nat)
    requires |cells| == 64 && i < 64 && cells[i].None?
    requires pre == (if i % 8 == 0 && i != 0 then EmptyText(e) + "/" else "")
    requires pending == (if i % 8 == 0 && i != 0 then 0 else e)
    ensures PlacementFrom(cells, i, e) == pre + PlacementFrom(cells, i + 1, pending + 1)
  {
  }

  /** The placement text at an occupied square: the flush at a rank boundary, the pending count, the letter, the rest. */
  lemma PlacementPieceSquare(cells: seq<Option<Piece>>, i: nat, e: nat, pre: string, pending: nat, p: Piece)
    requires |cells| == 64 && i < 64 && cells[i] == Some(p)
    requires pre == (if i % 8 == 0 && i != 0 then EmptyText(e) + "/" else "")
    requires pending == (if i % 8 == 0 && i != 0 then 0 else e)
    ensures PlacementFrom(cells, i, e) == pre + (EmptyText(pending) + [Char(p)] + PlacementFrom(cells, i + 1, 0))
  {
    var rest := PlacementFrom(cells, i + 1, 0);
    var count := EmptyText(pending);
    assert PlacementFrom(cells, i, e) == pre + count + [Char(p)] + rest;
    Assoc(pre + count, [Char(p)], rest);
    Assoc(pre, count, [Char(p)] + rest);
    Assoc(count, [Char(p)], rest);
  }

  /**
   * The loop of `as_fen` at an empty square: with the text so far being
   * `before` plus the flush, the invariant moves on to square i + 1.
   */
  lemma EmptySquareStep(cells: seq<Option<Piece>>, i: nat, e: nat, pre: string, pending: nat,
                        before: string, fen: string)
    requires |cells| == 64 && i < 64 && cells[i].None?
    requires pre == (if i % 8 == 0 && i != 0 then EmptyText(e) + "/" else "")
    requires pending == (if i % 8 == 0 && i != 0 then 0 else e)
    requires fen == before + pre
    ensures fen + PlacementFrom(cells, i + 1, pending + 1) == before + PlacementFrom(cells, i, e)
  {
    PlacementEmptySquare(cells, i, e, pre, pending);
    Assoc(before, pre, PlacementFrom(cells, i + 1, pending + 1));
  }

  /** The loop of `as_fen` at an occupied square: the pending count is flushed and the letter written. */
  lemma PieceSquareStep(cells: seq<Option<Piece>>, i: nat, e: nat, pre: string, pending: nat,
                        before: string, fen: string, p: Piece)
    requires |cells| == 64 && i < 64 && cells[i] == Some(p)
    requires pre == (if i % 8 == 0 && i != 0 then EmptyText(e) + "/" else "")
    requires pending == (if i % 8 == 0 && i != 0 then 0 else e)
    requires fen == before + pre
    ensures (if pending != 0 then fen + NatText(pending) else fen) + [Char(p)] + PlacementFrom(cells, i + 1, 0)
            == before + PlacementFrom(cells, i, e)
  {
    var rest := PlacementFrom(cells, i + 1, 0);
    PlacementPieceSquare(cells, i, e, pre, pending, p);
    FlushPiece(fen, pending, Char(p), rest);
    Assoc(before, pre, EmptyText(pending) + [Char(p)] + rest);
  }

  lemma Assoc(a: string, b: string, c: string)
    ensures a + b + c == a + (b + c)
  {
  }

  /** Writing a non-zero count and then '/' writes the count's text and '/'. */
  lemma FlushSlash(before: string, e: nat)
    ensures (if e != 0 then before + NatText(e) else before) + "/" == before + (EmptyText(e) + "/")
  {
    if e == 0 {
      assert EmptyText(e) + "/" == "/";
    }
  }

  /** Writing a non-zero count and then a letter writes the count's text and the letter. */
  lemma FlushPiece(x: string, e: nat, c: char, rest: string)
    ensures (if e != 0 then x + NatText(e) else x) + [c] + rest == x + (EmptyText(e) + [c] + rest)
  {
    if e == 0 {
      assert EmptyText(e) + [c] + rest == [c] + rest;
    }
  }

  /** Decoding a whole placement text places every piece of its cells on empty boards. */
  lemma DecodePlacement(cells: seq<Option<Piece>>)
    requires |cells| == 64
    requires forall j | 0 <= j < 64 :: cells[j] != Some(Empty)
    ensures DecodeFrom(Placement(cells), 0, Zeros()) == Ok(PlaceAll(cells, 0, Zeros()))
  {
    DecodePlacementFrom(cells, 0, 0, Zeros());
  }

  /** Setting square sq on board j adds sq to board k exactly when j is k. */
  lemma SetBoardSquares(acc: seq<bv64>, j: nat, sq: Square, k: nat)
    requires |acc| == 12 && j < 12 && k < 12
    ensures Squares(acc[j := SetBit(acc[j], sq)][k]) == Squares(acc[k]) + (if j == k then {sq} else {})
  {
    SquaresSetBit(acc[j], sq);
  }

  /** Board k after placing the pieces from square i on holds acc[k]'s squares and those pieces' squares. */
  lemma {:induction false} PlaceAllSquares(cells: seq<Option<Piece>>, i: nat, acc: seq<bv64>, k: nat)
    requires |cells| == 64 && i <= 64 && |acc| == 12 && k < 12
    requires forall j | 0 <= j < 64 :: cells[j] != Some(Empty)
    ensures Squares(PlaceAll(cells, i, acc)[k]) == Squares(acc[k]) + HoldersFrom(cells, i, k)
    decreases 64 - i
  {
    if i == 64 {
      assert HoldersFrom(cells, i, k) == {};
    } else {
      HoldersStep(cells, i, k);
      var sq := i as Square;
      IndexSquare(i);
      match cells[i]
      case None =>
        assert !Holds(cells, sq, k);
        PlaceAllSquares(cells, i + 1, acc, k);
      case Some(p) =>
        var acc' := acc[Index(p) := SetBit(acc[Index(p)], sq)];
        PlaceAllSquares(cells, i + 1, acc', k);
        PlaceSomeStep(cells, i, acc, k, p);
    }
  }

  /** One piece placed at square i: the step of `PlaceAllSquares` for an occupied square. */
  lemma PlaceSomeStep(cells: seq<Option<Piece>>, i: nat, acc: seq<bv64>, k: nat, p: Piece)
    requires |cells| == 64 && i < 64 && |acc| == 12 && k < 12
    requires forall j | 0 <= j < 64 :: cells[j] != Some(Empty)
    requires cells[i] == Some(p)
    requires Squares(PlaceAll(cells, i + 1, acc[Index(p) := SetBit(acc[Index(p)], i as Square)])[k])
             == Squares(acc[Index(p) := SetBit(acc[Index(p)], i as Square)][k]) + HoldersFrom(cells, i + 1, k)
    ensures Squares(PlaceAll(cells, i, acc)[k]) == Squares(acc[k]) + HoldersFrom(cells, i, k)
  {
    var sq := i as Square;
    IndexSquare(i);
    HoldersStep(cells, i, k);
    assert Holds(cells, sq, k) <==> Index(p) == k;
    SetBoardSquares(acc, Index(p), sq, k);
  }

  /** An occupied square never shows as '.' when the occupancies are consistent. */
  lemma CellNotEmpty(b: seq<bv64>, occ: seq<bv64>, j: nat)
    requires |b| == 12 && |occ| == 3 && Consistent(b, occ) && j < 64
    ensures Cells(b, occ)[j] != Some(Empty)
  {
    var t := j as Square;
    IndexSquare(j);
    assert Cells(b, occ)[j] == Cell(b, occ, t);
    PieceOnOccupied(b, occ, t);
    InSquares(occ[2], t);
  }

  /** Square t shows board k's piece exactly when board k holds t. */
  lemma CellHolds(b: seq<bv64>, occ: seq<bv64>, t: Square, k: nat)
    requires |b| == 12 && |occ| == 3 && Consistent(b, occ) && Disjoint(b) && k < 12
    ensures Holds(Cells(b, occ), t, k) <==> Bit(b[k], t)
  {
    SquareIndex(t);
    var c := Cells(b, occ)[t as int];
    assert c == Cell(b, occ, t);
    if Bit(b[k], t) {
      InSquares(b[k], t);
      InSquares(occ[2], t);
      HeldMember(b, 0, 12, t);
      PieceOnDisjoint(b, occ, t, k);
      assert c == Some(PieceAt(k));
    } else if c.Some? {
      assert c.value == PieceOn(b, occ, t);
    }
  }

  /**
   * With consistent occupancies and disjoint boards, the squares `as_fen`
   * shows for board k's piece are exactly the squares of board k.
   */
  lemma CellsHolders(b: seq<bv64>, occ: seq<bv64>, k: nat)
    requires |b| == 12 && |occ| == 3 && Consistent(b, occ) && Disjoint(b) && k < 12
    ensures HoldersFrom(Cells(b, occ), 0, k) == Squares(b[k])
  {
    var cells := Cells(b, occ);
    forall t: Square ensures t in HoldersFrom(cells, 0, k) <==> t in Squares(b[k]) {
      InAll(t);
      InSquares(b[k], t);
      CellHolds(b, occ, t, k);
    }
  }

  lemma PlacedBoard(b: seq<bv64>, occ: seq<bv64>, k: nat)
    requires |b| == 12 && |occ| == 3 && Consistent(b, occ) && Disjoint(b) && k < 12
    requires forall j | 0 <= j < 64 :: Cells(b, occ)[j] != Some(Empty)
    ensures PlaceAll(Cells(b, occ), 0, Zeros())[k] == b[k]
  {
    var cells := Cells(b, occ);
    var r := PlaceAll(cells, 0, Zeros());
    CellsHolders(b, occ, k);
    PlaceAllSquares(cells, 0, Zeros(), k);
    SquaresZero();
    SquaresInjective(r[k], b[k]);
  }

  /** `set_fen` reads back the boards from the placement `as_fen` writes. */
  lemma PlacementRoundTrip(b: seq<bv64>, occ: seq<bv64>)
    requires |b| == 12 && |occ| == 3 && Consistent(b, occ) && Disjoint(b)
    ensures DecodeFrom(Placement(Cells(b, occ)), 0, Zeros()) == Ok(b)
  {
    var cells := Cells(b, occ);
    forall j | 0 <= j < 64 ensures cells[j] != Some(Empty) {
      CellNotEmpty(b, occ, j);
    }
    DecodePlacement(cells);
    var r := PlaceAll(cells, 0, Zeros());
    forall k | 0 <= k < 12 ensures r[k] == b[k] {
      PlacedBoard(b, occ, k);
    }
    assert r == b;
  }

  /** The placement text has no space: it is digits, '/' and piece letters. */
  lemma {:induction false} PlacementNoSpace(cells: seq<Option<Piece>>, i: nat, e: nat)
    requires |cells| == 64 && i <= 64
    ensures ' ' !in PlacementFrom(cells, i, e)
    decreases 64 - i
  {
    if i < 64 {
      var boundary := i % 8 == 0 && i != 0;
      var pending := if boundary then 0 else e;
      var pre := if boundary then EmptyText(e) + "/" else "";
      EmptyTextNoSpace(e);
      EmptyTextNoSpace(pending);
      match cells[i]
      case None =>
        PlacementEmptySquare(cells, i, e, pre, pending);
        PlacementNoSpace(cells, i + 1, pending + 1);
      case Some(p) =>
        PlacementPieceSquare(cells, i, e, pre, pending, p);
        PlacementNoSpace(cells, i + 1, 0);
    } else {
      EmptyTextNoSpace(e);
    }
  }

  /** A pending count is written in digits only. */
  lemma EmptyTextNoSpace(n: nat)
    ensures ' ' !in EmptyText(n)
  {
    if n != 0 {
      var s := NatText(n);
      assert forall i | 0 <= i < |s| :: s[i] != ' ' by {
        forall i | 0 <= i < |s| ensures s[i] != ' ' { assert IsDigit(s[i]); }
      }
    }
  }

  // ---------------------------------------------------------------------
  // Side to move, castling and en-passant fields
  // ---------------------------------------------------------------------

  /** The side-to-move field: "w" or "b". */
  function SideText(c: Colors.Color): (s: string)
    ensures |s| == 1 && Colors.FromChar(s[0]) == Ok(c)
  {
    if c == Colors.White then "w" else "b"
  }

  /** One castling letter when its right is held, nothing otherwise. */
  function Letter(held: bool, ch: char): string {
    if held then [ch] else []
  }

  /**
   * The castling field `as_fen` writes: K, Q, k, q for the rights held, in
   * that order, followed by '-' when the mask is zero.
   */
  function CastlingText(c: CastlingRights): (s: string)
    ensures ' ' !in s
  {
    Letter(CanCastle(c, WHITE_KINGSIDE), 'K') + Letter(CanCastle(c, WHITE_QUEENSIDE), 'Q')
      + Letter(CanCastle(c, BLACK_KINGSIDE), 'k') + Letter(CanCastle(c, BLACK_QUEENSIDE), 'q')
      + (if RightsU8(c) == 0 then "-" else "")
  }

  /** Reading an optional castling letter adds its right when it is there. */
  lemma ReadLetter(held: bool, ch: char, rest: string)
    requires RightOfChar(ch).Some?
    ensures RightsFromString(Letter(held, ch) + rest)
            == if held then AddTo(RightOfChar(ch).value, RightsFromString(rest)) else RightsFromString(rest)
  {
    if held {
      assert (Letter(held, ch) + rest)[1..] == rest;
    } else {
      assert Letter(held, ch) + rest == rest;
    }
  }

  /** Rights within the four flags survive being written and read back. */
  lemma CastlingRoundTrip(c: CastlingRights)
    requires c.rights <= 15
    ensures RightsFromString(CastlingText(c)) == Ok(c)
  {
    var wk, wq := CanCastle(c, WHITE_KINGSIDE), CanCastle(c, WHITE_QUEENSIDE);
    var bk, bq := CanCastle(c, BLACK_KINGSIDE), CanCastle(c, BLACK_QUEENSIDE);
    var dash: string := if RightsU8(c) == 0 then "-" else "";
    var k, q, k', q' := Letter(wk, 'K'), Letter(wq, 'Q'), Letter(bk, 'k'), Letter(bq, 'q');
    calc {
      CastlingText(c);
      k + q + k' + q' + dash;
      { Assoc(k + q + k', q', dash); }
      k + q + k' + (q' + dash);
      { Assoc(k + q, k', q' + dash); }
      k + q + (k' + (q' + dash));
      { Assoc(k, q, k' + (q' + dash)); }
      k + (q + (k' + (q' + dash)));
    }
    assert RightsFromString(dash) == Ok(NewEmpty());
    ReadFlags(wk, wq, bk, bq, dash);
    FlagsOfRights(c);
  }

  /** The mask the four flags stand for. */
  function FlagsByte(wk: bool, wq: bool, bk: bool, bq: bool): bv8 {
    (if wk then WHITE_KINGSIDE else 0) | ((if wq then WHITE_QUEENSIDE else 0)
      | ((if bk then BLACK_KINGSIDE else 0) | (if bq then BLACK_QUEENSIDE else 0)))
  }

  /** Rights within the four flags are the mask of the flags they hold. */
  lemma FlagsOfRights(c: CastlingRights)
    requires c.rights <= 15
    ensures FlagsByte(CanCastle(c, WHITE_KINGSIDE), CanCastle(c, WHITE_QUEENSIDE),
                      CanCastle(c, BLACK_KINGSIDE), CanCastle(c, BLACK_QUEENSIDE)) == c.rights
  {
  }

  /** Reading the letters of the flags held, then an empty field, gives the mask of those flags. */
  lemma ReadFlags(wk: bool, wq: bool, bk: bool, bq: bool, dash: string)
    requires RightsFromString(dash) == Ok(NewEmpty())
    ensures RightsFromString(Letter(wk, 'K') + (Letter(wq, 'Q') + (Letter(bk, 'k') + (Letter(bq, 'q') + dash))))
            == Ok(CastlingRights(FlagsByte(wk, wq, bk, bq)))
  {
    var t3 := Letter(bq, 'q') + dash;
    var t2 := Letter(bk, 'k') + t3;
    var t1 := Letter(wq, 'Q') + t2;
    ReadLetter(bq, 'q', dash);
    ReadLetter(bk, 'k', t3);
    ReadLetter(wq, 'Q', t2);
    ReadLetter(wk, 'K', t1);
    var r3: bv8 := if bq then BLACK_QUEENSIDE else 0;
    var r2: bv8 := (if bk then BLACK_KINGSIDE else 0) | r3;
    var r1: bv8 := (if wq then WHITE_QUEENSIDE else 0) | r2;
    assert RightsFromString(t3) == Ok(CastlingRights(r3));
    assert RightsFromString(t2) == Ok(CastlingRights(r2));
    assert RightsFromString(t1) == Ok(CastlingRights(r1));
  }

  /** The en-passant field: the lower-case square name, or '-'. */
  function EnpassantText(e: Option<Square>): (s: string)
    ensures ' ' !in s
  {
    match e
    case None => "-"
    case Some(sq) => SquareName(sq)
  }

  /** Reading the en-passant field: '-' is none, otherwise it must name a square. */
  function ParseEnpassant(s: string): (r: Result<Option<Square>>)
    ensures r.Ok? && r.value.Some? ==> EnpassantText(r.value) == s
  {
    if s == "-" then Ok(None)
    else match SquareOfName(s)
      case None => Err("Invalid square")
      case Some(sq) => Ok(Some(sq))
  }

  lemma EnpassantRoundTrip(e: Option<Square>)
    ensures ParseEnpassant(EnpassantText(e)) == Ok(e)
  {
    match e
    case None =>
    case Some(sq) =>
      SquareNameParses(sq);
      assert SquareName(sq) != "-";
  }

  // ---------------------------------------------------------------------
  // The whole record
  // ---------------------------------------------------------------------

  /** What a FEN record sets: boards, side, rights, en-passant square and the two counters. */
  datatype FenFields = FenFields(
    boards: seq<bv64>, turn: Colors.Color, castling: CastlingRights,
    enpassant: Option<Square>, halfmove: nat, fullmove: nat)

  /** `as_fen`: the six fields, separated by single spaces. */
  function FenText(b: seq<bv64>, occ: seq<bv64>, turn: Colors.Color, castling: CastlingRights,
                   enpassant: Option<Square>, halfmove: nat, fullmove: nat): string
    requires |b| == 12 && |occ| == 3
  {
    Placement(Cells(b, occ)) + " " + SideText(turn) + " " + CastlingText(castling) + " "
      + EnpassantText(enpassant) + " " + NatText(halfmove) + " " + NatText(fullmove)
  }

  /**
   * What `set_fen` reads from a record: the fields split on single spaces,
   * the placement decoded onto cleared boards, the first letter of the side
   * field, the castling letters, the en-passant square and the two u32
   * counters.  Every place where the engine panics (a missing field, an
   * empty side field, a bad letter, a counter that does not parse) is an
   * error here; fields after the sixth are ignored.
   */
  function ParseFen(fen: string): (r: Result<FenFields>)
    ensures |Split(fen, ' ')| < 6 ==> r.Err?
    ensures r.Ok? ==> |r.value.boards| == 12 && r.value.castling.rights <= 15
    ensures r.Ok? ==> r.value.halfmove < U32_LIMIT && r.value.fullmove < U32_LIMIT
  {
    var sections := Split(fen, ' ');
    match DecodeFrom(sections[0], 0, Zeros())
    case Err(e) => Err(e)
    case Ok(boards) =>
      if |sections| < 2 || |sections[1]| == 0 then Err("missing side to move")
      else match Colors.FromChar(sections[1][0])
      case Err(e) => Err(e)
      case Ok(turn) =>
        if |sections| < 3 then Err("missing castling rights")
        else match RightsFromString(sections[2])
        case Err(e) => Err(e)
        case Ok(castling) =>
          ParseRightsInRange(sections[2]);
          if |sections| < 4 then Err("missing en-passant square")
          else match ParseEnpassant(sections[3])
          case Err(e) => Err(e)
          case Ok(enpassant) =>
            if |sections| < 5 then Err("missing halfmove clock")
            else match ParseU32(sections[4])
            case None => Err("invalid halfmove clock")
            case Some(halfmove) =>
              if |sections| < 6 then Err("missing fullmove number")
              else match ParseU32(sections[5])
              case None => Err("invalid fullmove number")
              case Some(fullmove) => Ok(FenFields(boards, turn, castling, enpassant, halfmove, fullmove))
  }

  /** A record that reads successfully has six fields that each read as the result says. */
  lemma ParsedFields(fen: string)
    requires ParseFen(fen).Ok?
    ensures var r, sections := ParseFen(fen).value, Split(fen, ' ');
            |sections| >= 6 && DecodeFrom(sections[0], 0, Zeros()) == Ok(r.boards)
            && |sections[1]| > 0 && Colors.FromChar(sections[1][0]) == Ok(r.turn)
            && RightsFromString(sections[2]) == Ok(r.castling)
            && ParseEnpassant(sections[3]) == Ok(r.enpassant)
            && ParseU32(sections[4]) == Some(r.halfmove) && ParseU32(sections[5]) == Some(r.fullmove)
  {
  }

  /** Splitting the written record gives back its six fields. */
  lemma SplitFields(p: string, a: string, c: string, e: string, h: string, f: string)
    requires ' ' !in p && ' ' !in a && ' ' !in c && ' ' !in e && ' ' !in h && ' ' !in f
    ensures Split(p + " " + a + " " + c + " " + e + " " + h + " " + f, ' ') == [p, a, c, e, h, f]
  {
    var t5 := h + [' '] + f;
    var t4 := e + [' '] + t5;
    var t3 := c + [' '] + t4;
    var t2 := a + [' '] + t3;
    calc {
      p + " " + a + " " + c + " " + e + " " + h + " " + f;
      { SpaceShift(p + " " + a + " " + c + " " + e, h, f); }
      p + " " + a + " " + c + " " + e + [' '] + t5;
      { SpaceShift(p + " " + a + " " + c, e, t5); }
      p + " " + a + " " + c + [' '] + t4;
      { SpaceShift(p + " " + a, c, t4); }
      p + " " + a + [' '] + t3;
      { SpaceShift(p, a, t3); }
      p + [' '] + t2;
    }
    SplitNone(f, ' ');
    var s5 := [h] + [f];
    SplitCons(h, f, [f], t5, s5);
    var s4 := [e] + s5;
    SplitCons(e, t5, s5, t4, s4);
    var s3 := [c] + s4;
    SplitCons(c, t4, s4, t3, s3);
    var s2 := [a] + s3;
    SplitCons(a, t3, s3, t2, s2);
    SplitCons(p, t2, s2, p + [' '] + t2, [p] + s2);
    assert [p] + s2 == [p, a, c, e, h, f];
  }

  lemma SpaceShift(u: string, x: string, v: string)
    ensures u + " " + x + [' '] + v == u + [' '] + (x + [' '] + v)
  {
  }

  /** A field without spaces, a space and the rest split into the field and the rest's fields. */
  lemma SplitCons(x: string, rest: string, tail: seq<string>, whole: string, parts: seq<string>)
    requires ' ' !in x && Split(rest, ' ') == tail
    requires whole == x + [' '] + rest && parts == [x] + tail
    ensures Split(whole, ' ') == parts
  {
    SplitJoin(x, ' ', rest);
  }

  /**
   * Writing a position with disjoint boards, consistent occupancies, rights
   * within the four flags and 32-bit counters, and reading the text back,
   * gives every field back.
   */
  lemma FenRoundTrip(b: seq<bv64>, occ: seq<bv64>, turn: Colors.Color, castling: CastlingRights,
                     enpassant: Option<Square>, halfmove: nat, fullmove: nat)
    requires |b| == 12 && |occ| == 3 && Consistent(b, occ) && Disjoint(b)
    requires castling.rights <= 15 && halfmove < U32_LIMIT && fullmove < U32_LIMIT
    ensures ParseFen(FenText(b, occ, turn, castling, enpassant, halfmove, fullmove))
            == Ok(FenFields(b, turn, castling, enpassant, halfmove, fullmove))
  {
    var p := Placement(Cells(b, occ));
    var a, c, e := SideText(turn), CastlingText(castling), EnpassantText(enpassant);
    var h, f := NatText(halfmove), NatText(fullmove);
    PlacementNoSpace(Cells(b, occ), 0, 0);
    SplitFields(p, a, c, e, h, f);
    PlacementRoundTrip(b, occ);
    CastlingRoundTrip(castling);
    EnpassantRoundTrip(enpassant);
    NatTextParses(halfmove);
    NatTextParses(fullmove);
    ReadFields(FenText(b, occ, turn, castling, enpassant, halfmove, fullmove), p, a, c, e, h, f,
               FenFields(b, turn, castling, enpassant, halfmove, fullmove));
  }

  /** A record whose six fields each read successfully reads as those fields. */
  lemma ReadFields(text: string, p: string, a: string, c: string, e: string, h: string, f: string, r: FenFields)
    requires Split(text, ' ') == [p, a, c, e, h, f]
    requires DecodeFrom(p, 0, Zeros()) == Ok(r.boards)
    requires |a| > 0 && Colors.FromChar(a[0]) == Ok(r.turn)
    requires RightsFromString(c) == Ok(r.castling)
    requires ParseEnpassant(e) == Ok(r.enpassant)
    requires ParseU32(h) == Some(r.halfmove) && ParseU32(f) == Some(r.fullmove)
    ensures ParseFen(text) == Ok(r)
  {
  }

  // ---------------------------------------------------------------------
  // The material recount of set_fen
  // ---------------------------------------------------------------------

  /**
   * What square s adds to the two material totals: the value of the piece
   * the lookup reports there (with the occupancies `occ`), on its own side.
   */
  function MaterialAt(b: seq<bv64>, occ: seq<bv64>, s: Square, phase: int,
                      openPst: seq<seq<int>>, endPst: seq<seq<int>>): (m: seq<int>)
    requires |b| == 12 && |occ| == 3 && TableShape(openPst) && TableShape(endPst)
    ensures |m| == 2
  {
    var p := PieceOn(b, occ, s);
    if p == Empty then [0, 0]
    else
      var v := PieceValue(Index(p), s, phase, openPst, endPst);
      if Index(p) >= 6 then [0, v] else [v, 0]
  }

  /** The contribution of every square, a8 first. */
  function Contributions(b: seq<bv64>, occ: seq<bv64>, phase: int,
                         openPst: seq<seq<int>>, endPst: seq<seq<int>>): (ds: seq<seq<int>>)
    requires |b| == 12 && |occ| == 3 && TableShape(openPst) && TableShape(endPst)
    ensures |ds| == 64 && forall i | 0 <= i < 64 :: |ds[i]| == 2
  {
    seq(64, i requires 0 <= i < 64 => MaterialAt(b, occ, i as Square, phase, openPst, endPst))
  }

  /** Square i's contribution, in the terms the material loop uses. */
  lemma ContributionAt(b: seq<bv64>, occ: seq<bv64>, phase: int,
                       openPst: seq<seq<int>>, endPst: seq<seq<int>>, i: nat)
    requires |b| == 12 && |occ| == 3 && TableShape(openPst) && TableShape(endPst) && i < 64
    ensures var p, d := PieceOn(b, occ, i as Square), Contributions(b, occ, phase, openPst, endPst)[i];
            d == if p == Empty then [0, 0]
                 else var v := PieceValue(Index(p), i as Square, phase, openPst, endPst);
                      if Index(p) >= 6 then [0, v] else [v, 0]
  {
  }

  /** The two totals after adding the contributions from square i on to `acc`. */
  function SumFrom(ds: seq<seq<int>>, i: nat, acc: seq<int>): (m: seq<int>)
    requires i <= |ds| && |acc| == 2 && forall j | 0 <= j < |ds| :: |ds[j]| == 2
    ensures |m| == 2
    decreases |ds| - i
  {
    if i == |ds| then acc
    else SumFrom(ds, i + 1, [acc[0] + ds[i][0], acc[1] + ds[i][1]])
  }

  /** A square the lookup finds empty leaves the totals as they are. */
  lemma MaterialEmptyStep(b: seq<bv64>, occ: seq<bv64>, phase: int,
                          openPst: seq<seq<int>>, endPst: seq<seq<int>>, i: nat, m: seq<int>)
    requires |b| == 12 && |occ| == 3 && TableShape(openPst) && TableShape(endPst) && i < 64 && |m| == 2
    requires PieceOn(b, occ, i as Square) == Empty
    ensures var ds := Contributions(b, occ, phase, openPst, endPst);
            SumFrom(ds, i, m) == SumFrom(ds, i + 1, m)
  {
    var ds := Contributions(b, occ, phase, openPst, endPst);
    ContributionAt(b, occ, phase, openPst, endPst, i);
    assert [m[0] + ds[i][0], m[1] + ds[i][1]] == m;
  }

  /** A square the lookup finds a piece on adds the piece's value to its side's total. */
  lemma MaterialPieceStep(b: seq<bv64>, occ: seq<bv64>, phase: int,
                          openPst: seq<seq<int>>, endPst: seq<seq<int>>, i: nat, m: seq<int>)
    requires |b| == 12 && |occ| == 3 && TableShape(openPst) && TableShape(endPst) && i < 64 && |m| == 2
    requires PieceOn(b, occ, i as Square) != Empty
    ensures var ds := Contributions(b, occ, phase, openPst, endPst);
            var p := PieceOn(b, occ, i as Square);
            var v := PieceValue(Index(p), i as Square, phase, openPst, endPst);
            SumFrom(ds, i, m) == SumFrom(ds, i + 1, AddSide(m, Index(p) >= 6, v))
  {
    var ds := Contributions(b, occ, phase, openPst, endPst);
    ContributionAt(b, occ, phase, openPst, endPst, i);
    var p := PieceOn(b, occ, i as Square);
    var v := PieceValue(Index(p), i as Square, phase, openPst, endPst);
    SumFromSide(ds, i, m, Index(p) >= 6, v);
  }

  /** A contribution putting v on one side adds v to that side's total. */
  lemma SumFromSide(ds: seq<seq<int>>, i: nat, m: seq<int>, black: bool, v: int)
    requires i < |ds| && |m| == 2 && forall j | 0 <= j < |ds| :: |ds[j]| == 2
    requires ds[i] == if black then [0, v] else [v, 0]
    ensures SumFrom(ds, i, m) == SumFrom(ds, i + 1, AddSide(m, black, v))
  {
    AddToSide(m, black, v);
  }

  /** The totals with v added to Black's (when `black`) or White's. */
  function AddSide(m: seq<int>, black: bool, v: int): (r: seq<int>)
    requires |m| == 2
    ensures |r| == 2
  {
    if black then m[1 := m[1] + v] else m[0 := m[0] + v]
  }

  /** Adding v to one side's total is adding the contribution that puts v on that side. */
  lemma AddToSide(m: seq<int>, black: bool, v: int)
    requires |m| == 2
    ensures var d := if black then [0, v] else [v, 0];
            AddSide(m, black, v) == [m[0] + d[0], m[1] + d[1]]
  {
  }

  /** The material loop of `set_fen` from square i on, adding to the totals `acc`. */
  function MaterialFrom(b: seq<bv64>, occ: seq<bv64>, i: nat, phase: int,
                        openPst: seq<seq<int>>, endPst: seq<seq<int>>, acc: seq<int>): (m: seq<int>)
    requires |b| == 12 && |occ| == 3 && TableShape(openPst) && TableShape(endPst)
    requires i <= 64 && |acc| == 2
    ensures |m| == 2
  {
    SumFrom(Contributions(b, occ, phase, openPst, endPst), i, acc)
  }

  /** The material of the boards b: the loop run from zero with the occupancies of b itself. */
  function MaterialOf(b: seq<bv64>, openPst: seq<seq<int>>, endPst: seq<seq<int>>): seq<int>
    requires |b| == 12 && TableShape(openPst) && TableShape(endPst)
  {
    MaterialFrom(b, OccupanciesOf(b), 0, PhaseScore(b), openPst, endPst, [0, 0])
  }

  /**
   * With consistent occupancies and disjoint boards every piece counts for
   * its own side, and at its own value: a white piece adds to the first
   * total only, a black piece to the second only.
   */
  lemma MaterialAtPiece(b: seq<bv64>, occ: seq<bv64>, s: Square, k: nat, phase: int,
                        openPst: seq<seq<int>>, endPst: seq<seq<int>>)
    requires |b| == 12 && |occ| == 3 && Consistent(b, occ) && Disjoint(b) && k < 12 && Bit(b[k], s)
    requires TableShape(openPst) && TableShape(endPst)
    ensures var v := PieceValue(k, s, phase, openPst, endPst);
            MaterialAt(b, occ, s, phase, openPst, endPst) == if k < 6 then [v, 0] else [0, v]
  {
    PieceOnDisjoint(b, occ, s, k);
  }

  /** With consistent occupancies an empty square adds nothing. */
  lemma MaterialAtEmpty(b: seq<bv64>, occ: seq<bv64>, s: Square, phase: int,
                        openPst: seq<seq<int>>, endPst: seq<seq<int>>)
    requires |b| == 12 && |occ| == 3 && Consistent(b, occ)
    requires TableShape(openPst) && TableShape(endPst)
    requires forall k | 0 <= k < 12 :: !Bit(b[k], s)
    ensures MaterialAt(b, occ, s, phase, openPst, endPst) == [0, 0]
  {
    PieceOnOccupied(b, occ, s);
    HeldMember(b, 0, 12, s);
  }

  /** The loop adds its count to whatever totals it starts from: nothing resets them. */
  lemma {:induction false} SumFromAdds(ds: seq<seq<int>>, i: nat, acc: seq<int>)
    requires i <= |ds| && |acc| == 2 && forall j | 0 <= j < |ds| :: |ds[j]| == 2
    ensures var z := SumFrom(ds, i, [0, 0]);
            SumFrom(ds, i, acc) == [acc[0] + z[0], acc[1] + z[1]]
    decreases |ds| - i
  {
    if i < |ds| {
      SumFromAdds(ds, i + 1, [acc[0] + ds[i][0], acc[1] + ds[i][1]]);
      SumFromAdds(ds, i + 1, [0 + ds[i][0], 0 + ds[i][1]]);
    }
  }

  /** Contributions that never add to the first total leave it as it started. */
  lemma {:induction false} SumFromFirstFixed(ds: seq<seq<int>>, i: nat, acc: seq<int>)
    requires i <= |ds| && |acc| == 2 && forall j | 0 <= j < |ds| :: |ds[j]| == 2 && ds[j][0] == 0
    ensures SumFrom(ds, i, acc)[0] == acc[0]
    decreases |ds| - i
  {
    if i < |ds| {
      SumFromFirstFixed(ds, i + 1, [acc[0] + ds[i][0], acc[1] + ds[i][1]]);
    }
  }

  /**
   * With all-zero occupancies (those of a freshly created position, which
   * `set_fen` reads before recomputing them) the lookup never reports a
   * white piece, so the white total does not move whatever the boards hold.
   */
  lemma MaterialFromStale(b: seq<bv64>, phase: int, openPst: seq<seq<int>>, endPst: seq<seq<int>>, acc: seq<int>)
    requires |b| == 12 && TableShape(openPst) && TableShape(endPst) && |acc| == 2
    ensures MaterialFrom(b, [0, 0, 0], 0, phase, openPst, endPst, acc)[0] == acc[0]
  {
    var ds := Contributions(b, [0, 0, 0], phase, openPst, endPst);
    forall j | 0 <= j < 64 ensures ds[j][0] == 0 {
      ZeroHasNoBits(j as Square);
    }
    SumFromFirstFixed(ds, 0, acc);
  }

  /** Contributions that are all zero from square i on leave the totals as they are. */
  lemma {:induction false} SumFromNone(ds: seq<seq<int>>, i: nat, acc: seq<int>)
    requires i <= |ds| && |acc| == 2 && forall j | 0 <= j < |ds| :: |ds[j]| == 2
    requires forall j | i <= j < |ds| :: ds[j] == [0, 0]
    ensures SumFrom(ds, i, acc) == acc
    decreases |ds| - i
  {
    if i < |ds| {
      assert [acc[0] + ds[i][0], acc[1] + ds[i][1]] == acc;
      SumFromNone(ds, i + 1, acc);
    }
  }

  /** The boards of "K7/8/8/8/8/8/8/8": a lone white king on a8. */
  function LoneKing(): (b: seq<bv64>)
    ensures |b| == 12 && b[5] == 1 && forall k | 0 <= k < 12 && k != 5 :: b[k] == 0
  {
    Zeros()[5 := 1]
  }

  /** Only the king's board holds a8, and no board holds any other square. */
  lemma LoneKingBits(s: Square, k: nat)
    requires k < 12
    ensures Bit(LoneKing()[k], s) <==> k == 5 && s == 0
  {
    ZeroHasNoBits(s);
    BitOfSingle(0, s);
  }

  /** The lone king's boards are disjoint, and no minor or major piece means phase 0. */
  lemma LoneKingShape()
    ensures Disjoint(LoneKing()) && PhaseScore(LoneKing()) == 0
  {
    var b := LoneKing();
    forall i, j, t: Square | 0 <= i < j < 12
      ensures !(Bit(b[i], t) && Bit(b[j], t))
    {
      LoneKingBits(t, i);
      LoneKingBits(t, j);
    }
  }

  /** Every square but a8 on the lone king's board is empty and contributes nothing. */
  lemma LoneKingEmptySquare(s: Square, pst: seq<seq<int>>)
    requires s != 0 && TableShape(pst)
    ensures MaterialAt(LoneKing(), OccupanciesOf(LoneKing()), s, 0, pst, pst) == [0, 0]
  {
    var b := LoneKing();
    forall k | 0 <= k < 12
      ensures !Bit(b[k], s)
    {
      LoneKingBits(s, k);
    }
    OccupanciesConsistent(b);
    MaterialAtEmpty(b, OccupanciesOf(b), s, 0, pst, pst);
  }

  /** Boards whose only piece is white piece k, on a8. */
  ghost predicate SoleWhitePiece(b: seq<bv64>, occ: seq<bv64>, k: nat, phase: int,
                                 openPst: seq<seq<int>>, endPst: seq<seq<int>>)
  {
    && |b| == 12 && |occ| == 3 && Consistent(b, occ) && Disjoint(b) && k < 6 && Bit(b[k], 0)
    && TableShape(openPst) && TableShape(endPst)
    && forall s: Square | s != 0 :: MaterialAt(b, occ, s, phase, openPst, endPst) == [0, 0]
  }

  /** A board whose only piece is a white piece on a8 is worth that piece to White. */
  lemma SingleWhitePiece(b: seq<bv64>, occ: seq<bv64>, k: nat, phase: int,
                         openPst: seq<seq<int>>, endPst: seq<seq<int>>)
    requires SoleWhitePiece(b, occ, k, phase, openPst, endPst)
    ensures MaterialFrom(b, occ, 0, phase, openPst, endPst, [0, 0])
            == [PieceValue(k, 0, phase, openPst, endPst), 0]
  {
    var ds := Contributions(b, occ, phase, openPst, endPst);
    MaterialAtPiece(b, occ, 0, k, phase, openPst, endPst);
    var v := PieceValue(k, 0, phase, openPst, endPst);
    assert ds[0] == [v, 0];
    forall j | 1 <= j < 64
      ensures ds[j] == [0, 0]
    {
      IndexSquare(j);
      assert ds[j] == MaterialAt(b, occ, j as Square, phase, openPst, endPst);
    }
    SumFromNone(ds, 1, [v, 0]);
  }

  /**
   * Counted from zero with its own occupancies, a lone white king on a8 is
   * worth 12000 to White (no minor or major piece, so phase 0 and the
   * ending value, here with all-zero tables) and nothing to Black.
   */
  lemma LoneKingMaterial(pst: seq<seq<int>>)
    requires pst == seq(12, _ => seq(64, _ => 0))
    ensures MaterialOf(LoneKing(), pst, pst) == [12000, 0]
  {
    LoneKingFacts(pst);
    SingleWhitePiece(LoneKing(), OccupanciesOf(LoneKing()), 5, 0, pst, pst);
  }

  /** What SingleWhitePiece asks of the lone king's boards. */
  lemma LoneKingFacts(pst: seq<seq<int>>)
    requires TableShape(pst)
    ensures PhaseScore(LoneKing()) == 0
    ensures SoleWhitePiece(LoneKing(), OccupanciesOf(LoneKing()), 5, 0, pst, pst)
  {
    OccupanciesConsistent(LoneKing());
    LoneKingShape();
    forall s: Square | s != 0
      ensures MaterialAt(LoneKing(), OccupanciesOf(LoneKing()), s, 0, pst, pst) == [0, 0]
    {
      LoneKingEmptySquare(s, pst);
    }
  }

  /** The text "K7/8/8/8/8/8/8/8 w - - 0 1", as the writer produces it. */
  function LoneKingText(): string
  {
    FenText(LoneKing(), OccupanciesOf(LoneKing()), Colors.White, NewEmpty(), None, 0, 1)
  }

  /** The lone king's text parses back to its boards and fields. */
  lemma LoneKingParses()
    ensures ParseFen(LoneKingText()) == Ok(FenFields(LoneKing(), Colors.White, NewEmpty(), None, 0, 1))
  {
    OccupanciesConsistent(LoneKing());
    LoneKingShape();
    FenRoundTrip(LoneKing(), OccupanciesOf(LoneKing()), Colors.White, NewEmpty(), None, 0, 1);
  }

  /** The twelve boards of the standard starting position, White's men on ranks 1 and 2 (squares 48 to 63). */
  function StartBoards(): (b: seq<bv64>)
    ensures |b| == 12
  {
    [0x00FF_0000_0000_0000, 0x4200_0000_0000_0000, 0x2400_0000_0000_0000, 0x8100_0000_0000_0000,
     0x0800_0000_0000_0000, 0x1000_0000_0000_0000,
     0xFF00, 0x42, 0x24, 0x81, 0x08, 0x10]
  }

  /** The white boards (indices 0 to 5) hold ranks 1 and 2, the black ones ranks 7 and 8. */
  lemma StartSides(i: nat)
    requires i < 12
    ensures i < 6 ==> StartBoards()[i] & 0xFFFF == 0
    ensures 6 <= i ==> StartBoards()[i] & 0xFFFF_0000_0000_0000 == 0
  {
  }

  /** No two boards of the starting position share a square. */
  lemma StartApart(i: nat, j: nat)
    requires i < j < 12
    ensures StartBoards()[i] & StartBoards()[j] == 0
  {
    if j < 6 {
    } else if 6 <= i {
    } else {
      StartSides(i);
      StartSides(j);
    }
  }

  /** No square of the starting position is held by two boards. */
  lemma StartDisjoint()
    ensures Disjoint(StartBoards())
  {
    var b := StartBoards();
    forall i, j, t: Square | 0 <= i < j < 12
      ensures !(Bit(b[i], t) && Bit(b[j], t))
    {
      StartApart(i, j);
      BitAnd(b[i], b[j], t);
      ZeroHasNoBits(t);
    }
  }

  /** The writer's record of the starting position, white to move, all four castling rights. */
  function StartText(): string
  {
    FenText(StartBoards(), OccupanciesOf(StartBoards()), Colors.White, Castling.New(), None, 0, 1)
  }

  /**
   * Reading the starting record gives back its boards, white to move, all
   * castling rights, no en-passant square and the counters 0 and 1.
   */
  lemma StartFenParses()
    ensures ParseFen(StartText()) == Ok(FenFields(StartBoards(), Colors.White, Castling.New(), None, 0, 1))
  {
    OccupanciesConsistent(StartBoards());
    StartDisjoint();
    FenRoundTrip(StartBoards(), OccupanciesOf(StartBoards()), Colors.White, Castling.New(), None, 0, 1);
  }

  /** The black back rank of the starting position, a8 to h8, read square by square. */
  lemma StartBlackPieces()
    ensures var b := StartBoards(); var occ := OccupanciesOf(b);
      && PieceOn(b, occ, 0) == BlackRook && PieceOn(b, occ, 1) == BlackKnight
      && PieceOn(b, occ, 2) == BlackBishop && PieceOn(b, occ, 3) == BlackQueen
      && PieceOn(b, occ, 4) == BlackKing && PieceOn(b, occ, 5) == BlackBishop
      && PieceOn(b, occ, 6) == BlackKnight && PieceOn(b, occ, 7) == BlackRook
  {
    var b := StartBoards();
    var occ := OccupanciesOf(b);
    OccupanciesConsistent(b);
    StartDisjoint();
    PieceOnDisjoint(b, occ, 0, 9);
    PieceOnDisjoint(b, occ, 1, 7);
    PieceOnDisjoint(b, occ, 2, 8);
    PieceOnDisjoint(b, occ, 3, 10);
    PieceOnDisjoint(b, occ, 4, 11);
    PieceOnDisjoint(b, occ, 5, 8);
    PieceOnDisjoint(b, occ, 6, 7);
    PieceOnDisjoint(b, occ, 7, 9);
  }

  /** Black's pawns stand on a7 to h7 (squares 8 to 15). */
  lemma StartBlackPawns()
    ensures var b := StartBoards(); var occ := OccupanciesOf(b);
      forall s: Square | 8 <= s < 16 :: PieceOn(b, occ, s) == BlackPawn
  {
    var b := StartBoards();
    var occ := OccupanciesOf(b);
    OccupanciesConsistent(b);
    StartDisjoint();
    forall s: Square | 8 <= s < 16
      ensures PieceOn(b, occ, s) == BlackPawn
    {
      PieceOnDisjoint(b, occ, s, 6);
    }
  }

  /** White's pawns stand on a2 to h2 (squares 48 to 55), a rook on a1 and a knight on b1. */
  lemma StartWhitePieces()
    ensures var b := StartBoards(); var occ := OccupanciesOf(b);
      && (forall s: Square | 48 <= s < 56 :: PieceOn(b, occ, s) == WhitePawn)
      && PieceOn(b, occ, 56) == WhiteRook && PieceOn(b, occ, 57) == WhiteKnight
  {
    var b := StartBoards();
    var occ := OccupanciesOf(b);
    OccupanciesConsistent(b);
    StartDisjoint();
    forall s: Square | 48 <= s < 56
      ensures PieceOn(b, occ, s) == WhitePawn
    {
      PieceOnDisjoint(b, occ, s, 0);
    }
    PieceOnDisjoint(b, occ, 56, 3);
    PieceOnDisjoint(b, occ, 57, 1);
  }
}
