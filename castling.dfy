// Castling rights: a four-bit mask, one bit per (colour, side) pair.

module Castling {
  import opened Wrappers

  const WHITE_KINGSIDE: bv8 := 0x1
  const WHITE_QUEENSIDE: bv8 := 0x2
  const BLACK_KINGSIDE: bv8 := 0x4
  const BLACK_QUEENSIDE: bv8 := 0x8

  /**
   * The rights value. It is a plain copyable value in the engine (positions
   * and history entries hold their own copies), so its two mutators are
   * modelled as functions returning the updated value, which the owner
   * assigns back.
   */
  datatype CastlingRights = CastlingRights(rights: bv8)

  predicate CanCastle(c: CastlingRights, right: bv8) {
    c.rights & right != 0
  }

  /** All four rights. */
  function New(): (c: CastlingRights)
    ensures CanCastle(c, WHITE_KINGSIDE) && CanCastle(c, WHITE_QUEENSIDE)
    ensures CanCastle(c, BLACK_KINGSIDE) && CanCastle(c, BLACK_QUEENSIDE)
    ensures c.rights <= 15
  {
    CastlingRights(0xF)
  }

  /** No rights at all. */
  function NewEmpty(): (c: CastlingRights)
    ensures forall right: bv8 :: !CanCastle(c, right)
  {
    CastlingRights(0)
  }

  /** Clears the bits of `right` and keeps every other bit. */
  function RemoveRight(c: CastlingRights, right: bv8): (r: CastlingRights)
    ensures r.rights & right == 0
    ensures r.rights | right == c.rights | right
    ensures c.rights <= 15 ==> r.rights <= 15
  {
    CastlingRights(c.rights & !right)
  }

  /** Sets the bits of `right` and keeps every other bit. */
  function AddRight(c: CastlingRights, right: bv8): (r: CastlingRights)
    ensures right != 0 ==> CanCastle(r, right)
    ensures r.rights & c.rights == c.rights
    ensures c.rights <= 15 && right <= 15 ==> r.rights <= 15
  {
    CastlingRights(c.rights | right)
  }

  /** The raw mask, used as the index of the castling Zobrist key. */
  function RightsU8(c: CastlingRights): (r: bv8)
    ensures CanCastle(c, r) <==> r != 0
  {
    c.rights
  }

  /** Rights within the four flags index the sixteen castling keys. */
  lemma RightsIndex(c: CastlingRights)
    requires c.rights <= 15
    ensures RightsU8(c) as int < 16
  {
  }

  /** The bit of one FEN castling letter, if it is one of K, Q, k, q. */
  function RightOfChar(ch: char): Option<bv8> {
    match ch
    case 'K' => Some(WHITE_KINGSIDE)
    case 'Q' => Some(WHITE_QUEENSIDE)
    case 'k' => Some(BLACK_KINGSIDE)
    case 'q' => Some(BLACK_QUEENSIDE)
    case _ => None
  }

  /**
   * What parsing the castling field of a FEN record yields: the letters up
   * to the first '-' (or the end) each add their right; any other letter
   * before that point is an error.
   */
  function RightsFromString(s: string): Result<CastlingRights> {
    if |s| == 0 || s[0] == '-' then Ok(NewEmpty())
    else match RightOfChar(s[0])
      case None => Err("Invalid castling rights")
      case Some(b) => AddTo(b, RightsFromString(s[1..]))
  }

  /** Adds the bits `b` to a parse result; an error stays an error. */
  function AddTo(b: bv8, r: Result<CastlingRights>): Result<CastlingRights> {
    match r
    case Err(m) => Err(m)
    case Ok(c) => Ok(AddRight(c, b))
  }

  lemma AddToTwice(a: bv8, b: bv8, r: Result<CastlingRights>)
    ensures AddTo(a, AddTo(b, r)) == AddTo(a | b, r)
  {
    match r
    case Err(_) =>
    case Ok(c) => assert a | (b | c.rights) == c.rights | (a | b);
  }

  lemma ParseStepError(t: string)
    requires |t| > 0 && t[0] != '-' && RightOfChar(t[0]).None?
    ensures forall a :: AddTo(a, RightsFromString(t)).Err?
  {
  }

  lemma ParseStep(t: string, a: bv8)
    requires |t| > 0 && t[0] != '-' && RightOfChar(t[0]).Some?
    ensures AddTo(a, RightsFromString(t)) == AddTo(a | RightOfChar(t[0]).value, RightsFromString(t[1..]))
  {
    AddToTwice(a, RightOfChar(t[0]).value, RightsFromString(t[1..]));
  }

  lemma ParseStop(t: string, acc: CastlingRights)
    requires |t| == 0 || t[0] == '-'
    ensures AddTo(acc.rights, RightsFromString(t)) == Ok(acc)
  {
    assert acc.rights | 0 == acc.rights;
  }

  /** Parses the castling field, stopping at '-' and rejecting unknown letters. */
  method ParseRights(s: string) returns (r: Result<CastlingRights>)
    ensures r == RightsFromString(s)
  {
    var acc := NewEmpty();
    var i := 0;
    while i < |s| && s[i] != '-'
      invariant 0 <= i <= |s|
      invariant RightsFromString(s) == AddTo(acc.rights, RightsFromString(s[i..]))
    {
      var bit := RightOfChar(s[i]);
      if bit.None? {
        ParseStepError(s[i..]);
        return Err("Invalid castling rights");
      }
      ParseStep(s[i..], acc.rights);
      assert s[i..][1..] == s[i + 1..];
      acc := AddRight(acc, bit.value);
      i := i + 1;
    }
    ParseStop(s[i..], acc);
    r := Ok(acc);
  }

  /** The letters that `RightsFromString` reads: everything before the first '-'. */
  function BeforeDash(s: string): (p: string)
    ensures |p| <= |s| && p == s[..|p|]
    ensures '-' !in p
  {
    if |s| == 0 || s[0] == '-' then [] else [s[0]] + BeforeDash(s[1..])
  }

  /** Parsing succeeds exactly when every letter before the first '-' is one of K, Q, k, q. */
  lemma {:induction false} ParseRightsAccepts(s: string)
    ensures RightsFromString(s).Ok? <==> forall ch :: ch in BeforeDash(s) ==> ch in "KQkq"
  {
    if |s| == 0 || s[0] == '-' {
    } else {
      ParseRightsAccepts(s[1..]);
      assert BeforeDash(s) == [s[0]] + BeforeDash(s[1..]);
      match RightOfChar(s[0])
      case None =>
        assert s[0] !in "KQkq";
      case Some(b) =>
        assert s[0] in "KQkq";
    }
  }

  /** Adding a right: the result holds `q` iff it held before or `b` supplies it. */
  lemma AddRightHolds(c: CastlingRights, b: bv8, q: bv8)
    ensures CanCastle(AddRight(c, b), q) <==> CanCastle(c, q) || b & q != 0
  {
    assert (c.rights | b) & q == (c.rights & q) | (b & q);
  }

  /** Each letter's bit overlaps the bit of a right only when it is that right's letter. */
  lemma LetterBits(ch: char, letter: char)
    requires RightOfChar(ch).Some? && RightOfChar(letter).Some?
    ensures RightOfChar(ch).value & RightOfChar(letter).value != 0 <==> ch == letter
  {
  }

  /**
   * After a successful parse a right is held exactly when its letter occurs
   * before the first '-', in whatever order and however often.
   */
  lemma {:induction false} ParseRightsHolds(s: string, letter: char)
    requires RightOfChar(letter).Some?
    requires RightsFromString(s).Ok?
    ensures CanCastle(RightsFromString(s).value, RightOfChar(letter).value) <==> letter in BeforeDash(s)
  {
    if |s| == 0 || s[0] == '-' {
    } else {
      var b := RightOfChar(s[0]).value;
      ParseRightsHolds(s[1..], letter);
      AddRightHolds(RightsFromString(s[1..]).value, b, RightOfChar(letter).value);
      LetterBits(s[0], letter);
      assert BeforeDash(s) == [s[0]] + BeforeDash(s[1..]);
    }
  }

  /** A parsed value never has bits outside the four rights, so it indexes a 16-entry key table. */
  lemma {:induction false} ParseRightsInRange(s: string)
    requires RightsFromString(s).Ok?
    ensures RightsFromString(s).value.rights <= 15
  {
    if |s| == 0 || s[0] == '-' {
    } else {
      ParseRightsInRange(s[1..]);
    }
  }

  lemma AllRightsParse()
    ensures RightsFromString("KQkq") == Ok(New())
    ensures RightsFromString("-") == Ok(NewEmpty())
  {
  }
}
