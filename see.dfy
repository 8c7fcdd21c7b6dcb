/**
 * Static exchange evaluation (`see` in `search/evaluate.rs`): the material
 * balance of the sequence of captures on one square that a move starts,
 * each side recapturing with its least valuable attacker and either side
 * free to stop when going on would lose.
 *
 * The exchange loop records, for each capture, what the capturing side has
 * won if it is recaptured; the back-propagation then lets each side stop
 * where that is better.  As written the back-propagation never revises the
 * first gain, so the engine reports the victim's value for every capture;
 * `SeeAsWritten` models that, `See` the corrected loop.
 */
module StaticExchange {
  import opened Wrappers
  import opened Bits
  import Colors
  import opened Pieces
  import opened MoveEffects

  /** SEE_PIECE_VALUES (search/constants.rs): pawn to king for each colour, then the empty square. */
  const SEE_PIECE_VALUES: seq<int> := [100, 300, 300, 500, 900, 20000, 100, 300, 300, 500, 900, 20000, 0]

  function SeeValue(p: Piece): (v: int)
    ensures 0 <= v <= 20000
  {
    SEE_PIECE_VALUES[Index(p)]
  }

  function Max(a: int, b: int): int { if a >= b then a else b }

  /** The pieces of one side: indices 0-5 for White, 6-11 for Black. */
  predicate Owns(side: Colors.Color, p: Piece)
  {
    6 * Colors.Index(side) <= Index(p) < 6 * Colors.Index(side) + 6
  }

  /** The side making capture `k` of the exchange: the mover makes capture 0. */
  function CapturingSide(turn: Colors.Color, k: nat): Colors.Color
  {
    if k % 2 == 0 then turn else Colors.Not(turn)
  }

  lemma CapturingSideNext(turn: Colors.Color, k: nat)
    ensures CapturingSide(turn, k + 1) == Colors.Not(CapturingSide(turn, k))
  {
    Colors.NotInvolution(turn);
  }

  datatype Attacker = Attacker(piece: Piece, from: bv64)

  /**
   * The first of the six kinds of a side, pawn to king, from kind `p` on,
   * with a piece among `attackers`; 6 when there is none.  The side's
   * bitboards start at `offset`.
   */
  function LeastKind(bitboards: seq<bv64>, offset: nat, attackers: bv64, p: nat): (k: nat)
    requires |bitboards| == 12 && offset <= 6 && p <= 6
    ensures p <= k <= 6
    decreases 6 - p
  {
    if p == 6 || Meets(bitboards, offset + p, attackers) then p
    else LeastKind(bitboards, offset, attackers, p + 1)
  }

  /** The pieces on bitboard `i` include one of `attackers`. */
  predicate Meets(bitboards: seq<bv64>, i: nat, attackers: bv64)
    requires i < |bitboards|
  {
    bitboards[i] & attackers != 0
  }

  /** The kind found has a piece among `attackers` and no cheaper kind has one. */
  lemma {:induction false} LeastKindIsLeast(bitboards: seq<bv64>, offset: nat, attackers: bv64, p: nat)
    requires |bitboards| == 12 && offset <= 6 && p <= 6
    ensures var k := LeastKind(bitboards, offset, attackers, p);
      && (k < 6 ==> Meets(bitboards, offset + k, attackers))
      && forall i | offset + p <= i < offset + k :: !Meets(bitboards, i, attackers)
    decreases 6 - p
  {
    if p < 6 && !Meets(bitboards, offset + p, attackers) {
      assert LeastKind(bitboards, offset, attackers, p) == LeastKind(bitboards, offset, attackers, p + 1);
      LeastKindIsLeast(bitboards, offset, attackers, p + 1);
    }
  }

  /**
   * The attacker of kind k: of that kind's pieces among `attackers`, the one
   * on the lowest square (`trailing_zeros`, 64 when there is none).
   */
  function KindAttacker(bitboards: seq<bv64>, offset: nat, attackers: bv64, k: nat): (r: Attacker)
    requires |bitboards| == 12 && offset + k < 12
    ensures r.from <= 64
  {
    TzSpec(bitboards[offset + k] & attackers);
    Attacker(PieceAt(offset + k), Tz(bitboards[offset + k] & attackers))
  }

  /**
   * The kind loop of `see` for the side whose bitboards start at `offset`:
   * the least valuable kind with a piece among `attackers`, and of those
   * pieces the one on the lowest square.
   */
  method LeastValuableAttacker(bitboards: seq<bv64>, offset: nat, attackers: bv64)
    returns (r: Option<Attacker>)
    requires |bitboards| == 12 && offset <= 6
    ensures var k := LeastKind(bitboards, offset, attackers, 0);
      && (r.None? <==> k == 6)
      && (r.Some? ==> k < 6 && r.value == KindAttacker(bitboards, offset, attackers, k))
      && (r.Some? ==> r.value.from < 64)
  {
    for p := 0 to 6
      invariant LeastKind(bitboards, offset, attackers, p) == LeastKind(bitboards, offset, attackers, 0)
    {
      var pieceAttackers := bitboards[offset + p] & attackers;
      LeastKindAt(bitboards, offset, attackers, p, pieceAttackers);
      if pieceAttackers != 0 {
        return Some(KindAttacker(bitboards, offset, attackers, p));
      }
    }
    return None;
  }

  /** One round of the kind loop: kind p is the least when it meets the attackers, else the search goes on. */
  lemma LeastKindAt(bitboards: seq<bv64>, offset: nat, attackers: bv64, p: nat, pieceAttackers: bv64)
    requires |bitboards| == 12 && offset <= 6 && p < 6 && pieceAttackers == bitboards[offset + p] & attackers
    ensures pieceAttackers != 0 ==> LeastKind(bitboards, offset, attackers, p) == p
                                    && KindAttacker(bitboards, offset, attackers, p).from < 64
    ensures pieceAttackers == 0 ==> LeastKind(bitboards, offset, attackers, p) == LeastKind(bitboards, offset, attackers, p + 1)
  {
    TzSpec(pieceAttackers);
  }

  /** The pieces attacking the target once the moving piece has left its square. */
  function FirstAttackers(occupancy: bv64, m: MoveFields, attackersTo: bv64 -> bv64): bv64
  {
    StandingAttackers(Lifted(occupancy, m), attackersTo)
  }

  /** The occupancy once the moving piece has left its square. */
  function Lifted(occupancy: bv64, m: MoveFields): bv64
  {
    occupancy ^ (1 << m.from)
  }

  /** The opponent has no piece that can recapture on the target. */
  predicate NoRecapture(bitboards: seq<bv64>, occupancy: bv64, turn: Colors.Color, m: MoveFields,
                        attackersTo: bv64 -> bv64)
    requires |bitboards| == 12
  {
    var side := Colors.Not(turn);
    forall i | 6 * Colors.Index(side) <= i < 6 * Colors.Index(side) + 6 ::
      !Meets(bitboards, i, FirstAttackers(occupancy, m, attackersTo))
  }

  /**
   * The first `n` gains the exchange loop records: `gains[0]` is the victim,
   * and `gains[k]` is the value of the piece that made capture `k - 1` less
   * the previous gain.
   */
  predicate GainsUpTo(gains: seq<int>, n: nat, victim: Piece, capturers: seq<Piece>)
  {
    && |gains| == 32 && n <= |capturers|
    && gains[0] == SeeValue(victim)
    && forall k | 1 <= k <= n && k < 32 :: gains[k] == SeeValue(capturers[k - 1]) - gains[k - 1]
  }

  /** The gains of an exchange that stopped at index `d` after `d` captures. */
  predicate GainsFollow(gains: seq<int>, d: nat, victim: Piece, capturers: seq<Piece>)
  {
    1 <= d <= 32 && |capturers| == d && GainsUpTo(gains, d, victim, capturers)
  }

  /** Captures after the first alternate between the two sides. */
  predicate Alternating(turn: Colors.Color, capturers: seq<Piece>)
  {
    forall k | 1 <= k < |capturers| :: Owns(CapturingSide(turn, k), capturers[k])
  }

  lemma AlternatingAppend(turn: Colors.Color, capturers: seq<Piece>, p: Piece)
    requires Alternating(turn, capturers) && Owns(CapturingSide(turn, |capturers|), p)
    ensures Alternating(turn, capturers + [p])
  {
    var extended := capturers + [p];
    forall k | 1 <= k < |extended|
      ensures Owns(CapturingSide(turn, k), extended[k])
    {
      if k < |capturers| {
        assert extended[k] == capturers[k];
      }
    }
  }

  lemma GainsRecord(gains: seq<int>, n: nat, victim: Piece, capturers: seq<Piece>, v: int)
    requires 1 <= n < 32 && n <= |capturers| && GainsUpTo(gains, n - 1, victim, capturers)
    requires v == SeeValue(capturers[n - 1]) - gains[n - 1]
    ensures GainsUpTo(gains[n := v], n, victim, capturers)
  {
  }

  lemma GainsMoreCapturers(gains: seq<int>, n: nat, victim: Piece, capturers: seq<Piece>, p: Piece)
    requires GainsUpTo(gains, n, victim, capturers)
    ensures GainsUpTo(gains, n, victim, capturers + [p])
  {
    var extended := capturers + [p];
    forall k | 1 <= k <= n && k < 32
      ensures gains[k] == SeeValue(extended[k - 1]) - gains[k - 1]
    {
      assert extended[k - 1] == capturers[k - 1];
    }
  }

  /** The least valuable attacker of the side whose bitboards start at `offset`, when it has one. */
  ghost function LeastAttacker(bitboards: seq<bv64>, offset: nat, attackers: bv64): Option<Attacker>
    requires |bitboards| == 12 && offset <= 6
  {
    var k := LeastKind(bitboards, offset, attackers, 0);
    if k == 6 then None else Some(KindAttacker(bitboards, offset, attackers, k))
  }

  /** The pieces still on the board that attack the target. */
  function StandingAttackers(occ: bv64, attackersTo: bv64 -> bv64): bv64
  {
    attackersTo(occ) & occ
  }

  /** The occupancy once the piece on `from` has left the board. */
  function Vacate(occ: bv64, from: bv64): bv64
    requires from <= 64
  {
    occ ^ (1 << from)
  }

  /**
   * The recaptures the board allows from occupancy `occ` on, `side` to
   * capture next: the side's least valuable attacker among the pieces still
   * standing, which then leaves the board (uncovering any piece behind it),
   * and so on, sides alternating, for at most `fuel` captures or until the
   * side to capture has no attacker left.
   */
  ghost function Recaptures(bitboards: seq<bv64>, occ: bv64, side: Colors.Color, attackersTo: bv64 -> bv64,
                            fuel: nat): (line: seq<Piece>)
    requires |bitboards| == 12
    ensures |line| <= fuel
    decreases fuel
  {
    if fuel == 0 then []
    else match LeastAttacker(bitboards, 6 * Colors.Index(side), StandingAttackers(occ, attackersTo))
      case None => []
      case Some(next) =>
        [next.piece] + Recaptures(bitboards, Vacate(occ, next.from), Colors.Not(side), attackersTo, fuel - 1)
  }

  /** The recaptures that follow move `m`: the opponent's first, with the moving piece gone from its square. */
  ghost function ExchangeLine(bitboards: seq<bv64>, occupancy: bv64, turn: Colors.Color, m: MoveFields,
                              attackersTo: bv64 -> bv64): seq<Piece>
    requires |bitboards| == 12
  {
    Recaptures(bitboards, Lifted(occupancy, m), Colors.Not(turn), attackersTo, 31)
  }

  /** One search for the least valuable attacker either ends the line or gives its next capture. */
  lemma RecapturesStep(bitboards: seq<bv64>, occ: bv64, side: Colors.Color, attackersTo: bv64 -> bv64,
                       fuel: nat, next: Option<Attacker>)
    requires |bitboards| == 12 && fuel > 0
    requires var offset := 6 * Colors.Index(side);
      var k := LeastKind(bitboards, offset, StandingAttackers(occ, attackersTo), 0);
      && (next.None? <==> k == 6)
      && (next.Some? ==> k < 6 && next.value == KindAttacker(bitboards, offset, StandingAttackers(occ, attackersTo), k))
    ensures next.None? ==> Recaptures(bitboards, occ, side, attackersTo, fuel) == []
    ensures next.Some? ==> Recaptures(bitboards, occ, side, attackersTo, fuel)
                           == [next.value.piece] + Recaptures(bitboards, Vacate(occ, next.value.from),
                                                              Colors.Not(side), attackersTo, fuel - 1)
  {
    assert next == LeastAttacker(bitboards, 6 * Colors.Index(side), StandingAttackers(occ, attackersTo));
  }

  /** The gain recorded at index `k` of an exchange: the victim's value, then each capturer's value less the gain before. */
  ghost function GainAt(victim: Piece, capturers: seq<Piece>, k: nat): int
    requires k <= |capturers|
  {
    if k == 0 then SeeValue(victim) else SeeValue(capturers[k - 1]) - GainAt(victim, capturers, k - 1)
  }

  /** The stand-pat test at index `k`: neither side gains by going on. */
  ghost predicate StandsPat(victim: Piece, capturers: seq<Piece>, k: nat)
    requires 1 <= k <= |capturers|
  {
    Max(-GainAt(victim, capturers, k - 1), GainAt(victim, capturers, k)) < 0
  }

  /**
   * The exchange that move `m` starts on this board: the moving piece, then
   * the board's recaptures in order, stopped at the first index where the
   * stand-pat test holds, or when the recaptures run out.
   */
  ghost predicate PlayedOut(bitboards: seq<bv64>, occupancy: bv64, turn: Colors.Color, m: MoveFields,
                            attackersTo: bv64 -> bv64, capturers: seq<Piece>)
    requires |bitboards| == 12
  {
    var line := ExchangeLine(bitboards, occupancy, turn, m, attackersTo);
    && 1 <= |capturers| && capturers[0] == m.piece && capturers[1..] <= line
    && (forall k | 1 <= k < |capturers| :: !StandsPat(m.capture, capturers, k))
    && (capturers[1..] == line || StandsPat(m.capture, capturers, |capturers|))
  }

  /** The recorded gains are the gains of the exchange. */
  lemma {:induction false} GainsAreGainAt(gains: seq<int>, n: nat, victim: Piece, capturers: seq<Piece>, k: nat)
    requires GainsUpTo(gains, n, victim, capturers) && k <= n && k < 32
    ensures gains[k] == GainAt(victim, capturers, k)
  {
    if k > 0 {
      GainsAreGainAt(gains, n, victim, capturers, k - 1);
    }
  }

  /** Two exchanges that agree on their first `n` capturers agree on their first `n` gains. */
  lemma {:induction false} GainAtPrefix(victim: Piece, c1: seq<Piece>, c2: seq<Piece>, n: nat, k: nat)
    requires n <= |c1| && n <= |c2| && c1[..n] == c2[..n] && k <= n
    ensures GainAt(victim, c1, k) == GainAt(victim, c2, k)
  {
    if k > 0 {
      assert c1[k - 1] == c1[..n][k - 1] == c2[k - 1];
      GainAtPrefix(victim, c1, c2, n, k - 1);
    }
  }

  /** The board decides the exchange: two exchanges played out from the same move are the same. */
  lemma PlayedOutUnique(bitboards: seq<bv64>, occupancy: bv64, turn: Colors.Color, m: MoveFields,
                        attackersTo: bv64 -> bv64, c1: seq<Piece>, c2: seq<Piece>)
    requires |bitboards| == 12
    requires PlayedOut(bitboards, occupancy, turn, m, attackersTo, c1)
    requires PlayedOut(bitboards, occupancy, turn, m, attackersTo, c2)
    ensures c1 == c2
  {
    if |c1| < |c2| {
      PlayedOutShorter(bitboards, occupancy, turn, m, attackersTo, c1, c2);
    } else if |c2| < |c1| {
      PlayedOutShorter(bitboards, occupancy, turn, m, attackersTo, c2, c1);
    } else {
      assert c1 == [c1[0]] + c1[1..];
      assert c2 == [c2[0]] + c2[1..];
    }
  }

  /** A played-out exchange cannot stop before another played out from the same move. */
  lemma PlayedOutShorter(bitboards: seq<bv64>, occupancy: bv64, turn: Colors.Color, m: MoveFields,
                         attackersTo: bv64 -> bv64, c1: seq<Piece>, c2: seq<Piece>)
    requires |bitboards| == 12
    requires PlayedOut(bitboards, occupancy, turn, m, attackersTo, c1)
    requires PlayedOut(bitboards, occupancy, turn, m, attackersTo, c2)
    ensures |c2| <= |c1|
  {
    if |c1| < |c2| {
      var line := ExchangeLine(bitboards, occupancy, turn, m, attackersTo);
      var n := |c1|;
      forall i | 0 <= i < n
        ensures c1[i] == c2[i]
      {
        if i > 0 {
          assert c1[i] == c1[1..][i - 1] == line[i - 1] == c2[1..][i - 1];
        }
      }
      assert c1[..n] == c2[..n];
      StandsPatPrefix(m.capture, c1, c2, n);
    }
  }

  /** The stand-pat test at index `n` depends only on the first `n` capturers. */
  lemma StandsPatPrefix(victim: Piece, c1: seq<Piece>, c2: seq<Piece>, n: nat)
    requires 1 <= n <= |c1| && n <= |c2| && c1[..n] == c2[..n]
    ensures StandsPat(victim, c1, n) == StandsPat(victim, c2, n)
  {
    GainAtPrefix(victim, c1, c2, n, n);
    GainAtPrefix(victim, c1, c2, n, n - 1);
  }

  /**
   * The gains side of the exchange loop after `d` captures: the gains
   * recorded so far, capturers alternating from the moving piece, and no
   * stand-pat test has stopped the exchange yet.
   */
  ghost predicate GainsSoFar(turn: Colors.Color, m: MoveFields, gains: seq<int>, d: nat, capturers: seq<Piece>)
  {
    && d < 32 && |capturers| == d + 1 && capturers[0] == m.piece
    && GainsUpTo(gains, d, m.capture, capturers)
    && Alternating(turn, capturers)
    && forall k | 1 <= k <= d :: Max(-gains[k - 1], gains[k]) >= 0
  }

  /** A round that goes on records its gain, which passes the stand-pat test, and adds the next capturer. */
  lemma GainsStep(turn: Colors.Color, m: MoveFields, gains: seq<int>, d: nat, capturers: seq<Piece>, p: Piece)
    requires Recorded(turn, m, gains, d, capturers) && d < 32 && Max(-gains[d - 1], gains[d]) >= 0
    requires Owns(CapturingSide(turn, d), p)
    ensures GainsSoFar(turn, m, gains, d, capturers + [p])
  {
    GainsMoreCapturers(gains, d, m.capture, capturers, p);
    AlternatingAppend(turn, capturers, p);
  }

  /**
   * The gains after `d` captures, the last one recorded: the capturers so
   * far, alternating from the moving piece, and no stand-pat test before
   * index `d` has stopped the exchange.
   */
  ghost predicate Recorded(turn: Colors.Color, m: MoveFields, gains: seq<int>, d: nat, capturers: seq<Piece>)
  {
    && GainsFollow(gains, d, m.capture, capturers) && capturers[0] == m.piece
    && Alternating(turn, capturers)
    && forall k | 1 <= k < d :: Max(-gains[k - 1], gains[k]) >= 0
  }

  /** Recording the gain of capture `d`, or reaching the end of the array, keeps the gains recorded. */
  lemma GainsRecorded(turn: Colors.Color, m: MoveFields, gains: seq<int>, prev: nat, d: nat,
                      capturers: seq<Piece>, attacker: Piece)
    requires d == prev + 1 && GainsSoFar(turn, m, gains, prev, capturers) && attacker == capturers[prev]
    ensures d == 32 ==> Recorded(turn, m, gains, d, capturers)
    ensures d < 32 ==> Recorded(turn, m, gains[d := SeeValue(attacker) - gains[d - 1]], d, capturers)
  {
    if d < 32 {
      GainsRecord(gains, d, m.capture, capturers, SeeValue(attacker) - gains[d - 1]);
    }
  }

  /** The recapture found joins the capturers, and the line goes on from the occupancy it leaves. */
  lemma LineExtends(bitboards: seq<bv64>, occ: bv64, side: Colors.Color, attackersTo: bv64 -> bv64, fuel: nat,
                    capturers: seq<Piece>, line: seq<Piece>, attackers: bv64, next: Attacker)
    requires |bitboards| == 12 && fuel > 0 && |capturers| >= 1
    requires capturers[1..] + Recaptures(bitboards, occ, side, attackersTo, fuel) == line
    requires attackers == StandingAttackers(occ, attackersTo)
    requires var offset := 6 * Colors.Index(side);
      var k := LeastKind(bitboards, offset, attackers, 0);
      k < 6 && next == KindAttacker(bitboards, offset, attackers, k)
    ensures (capturers + [next.piece])[1..]
            + Recaptures(bitboards, Vacate(occ, next.from), Colors.Not(side), attackersTo, fuel - 1) == line
  {
    RecapturesStep(bitboards, occ, side, attackersTo, fuel, Some(next));
    AppendTail(capturers, next.piece, Recaptures(bitboards, Vacate(occ, next.from), Colors.Not(side), attackersTo, fuel - 1), line);
  }

  lemma AppendTail(c: seq<Piece>, p: Piece, rest: seq<Piece>, line: seq<Piece>)
    requires |c| >= 1 && c[1..] + ([p] + rest) == line
    ensures (c + [p])[1..] + rest == line
  {
    assert (c + [p])[1..] == c[1..] + [p];
  }

  /** The attacker of kind `k` belongs to the side whose bitboards it was taken from. */
  lemma KindAttackerOwns(bitboards: seq<bv64>, side: Colors.Color, attackers: bv64, k: nat)
    requires |bitboards| == 12 && k < 6
    ensures Owns(side, KindAttacker(bitboards, 6 * Colors.Index(side), attackers, k).piece)
  {
  }

  /** When the opponent cannot recapture at all, the board's line of recaptures is empty. */
  lemma NoRecaptureLine(bitboards: seq<bv64>, occupancy: bv64, turn: Colors.Color, m: MoveFields,
                        attackersTo: bv64 -> bv64)
    requires |bitboards| == 12 && NoRecapture(bitboards, occupancy, turn, m, attackersTo)
    ensures ExchangeLine(bitboards, occupancy, turn, m, attackersTo) == []
  {
    var offset := 6 * Colors.Index(Colors.Not(turn));
    var attackers := FirstAttackers(occupancy, m, attackersTo);
    LeastKindIsLeast(bitboards, offset, attackers, 0);
  }

  /**
   * Where the exchange loop stops after `d` captures, `g` the gains before
   * the last round and `occ` the occupancy `side` was to capture from: the
   * gains are recorded, the capturers are the moving piece and the board's
   * recaptures, and the exchange is played out.
   */
  lemma Settled(bitboards: seq<bv64>, occupancy: bv64, turn: Colors.Color, m: MoveFields,
                attackersTo: bv64 -> bv64, gains: seq<int>, d: nat, capturers: seq<Piece>,
                occ: bv64, side: Colors.Color, attackers: bv64, fuel: nat)
    requires |bitboards| == 12 && d + fuel == 32
    requires Recorded(turn, m, gains, d, capturers)
    requires attackers == StandingAttackers(occ, attackersTo)
    requires capturers[1..] + Recaptures(bitboards, occ, side, attackersTo, fuel)
             == ExchangeLine(bitboards, occupancy, turn, m, attackersTo)
    requires d == 32 || Max(-gains[d - 1], gains[d]) < 0
             || LeastKind(bitboards, 6 * Colors.Index(side), attackers, 0) == 6
    ensures GainsFollow(gains, d, m.capture, capturers)
    ensures capturers[0] == m.piece && Alternating(turn, capturers)
    ensures PlayedOut(bitboards, occupancy, turn, m, attackersTo, capturers)
    ensures NoRecapture(bitboards, occupancy, turn, m, attackersTo) ==> d == 1
  {
    var line := ExchangeLine(bitboards, occupancy, turn, m, attackersTo);
    if d == 32 || Max(-gains[d - 1], gains[d]) >= 0 {
      if d < 32 {
        RecapturesStep(bitboards, occ, side, attackersTo, fuel, None);
      }
      assert capturers[1..] + [] == capturers[1..];
    }
    ExchangeStops(gains, d, m.capture, capturers, line);
    if NoRecapture(bitboards, occupancy, turn, m, attackersTo) {
      NoRecaptureLine(bitboards, occupancy, turn, m, attackersTo);
    }
  }

  /**
   * The exchange loop of `see`: at most 31 recaptures, alternating sides,
   * each by the least valuable attacker once the earlier capturers have left
   * the board; it stops when neither side can gain by going on.  The
   * capturers are returned as a ghost record of the exchange.
   */
  method Exchange(bitboards: seq<bv64>, occupancy: bv64, turn: Colors.Color, m: MoveFields,
                  attackersTo: bv64 -> bv64)
    returns (gains: seq<int>, d: nat, ghost capturers: seq<Piece>)
    requires |bitboards| == 12
    ensures GainsFollow(gains, d, m.capture, capturers)
    ensures capturers[0] == m.piece && Alternating(turn, capturers)
    ensures PlayedOut(bitboards, occupancy, turn, m, attackersTo, capturers)
    ensures NoRecapture(bitboards, occupancy, turn, m, attackersTo) ==> d == 1
  {
    var gain := seq(32, _ => 0);
    d := 0;
    var attacker := m.piece;
    gain := gain[0 := SeeValue(m.capture)];
    var occ := Lifted(occupancy, m);
    var attackers := StandingAttackers(occ, attackersTo);
    var side := Colors.Not(turn);
    capturers := [m.piece];
    ghost var fuel: nat := 31;
    var stop := false;
    while !stop
      invariant !stop ==> Ongoing(bitboards, occupancy, turn, m, attackersTo, gain, d, capturers, attacker,
                                  occ, attackers, side, fuel)
      invariant stop ==> Exit(bitboards, occupancy, turn, m, attackersTo, gain, d, capturers, occ, attackers, side, fuel)
      decreases 32 - d, !stop
    {
      gain, d, attacker, capturers, occ, attackers, side, fuel, stop :=
        Round(bitboards, occupancy, turn, m, attackersTo, gain, d, attacker, capturers, occ, attackers, side, fuel);
    }
    Settled(bitboards, occupancy, turn, m, attackersTo, gain, d, capturers, occ, side, attackers, fuel);
    gains := gain;
  }

  /** The exchange loop after `d` captures, at the head of the loop. */
  ghost predicate Ongoing(bitboards: seq<bv64>, occupancy: bv64, turn: Colors.Color, m: MoveFields,
                          attackersTo: bv64 -> bv64, gains: seq<int>, d: nat, capturers: seq<Piece>, attacker: Piece,
                          occ: bv64, attackers: bv64, side: Colors.Color, fuel: nat)
    requires |bitboards| == 12
  {
    && d < 32 && |capturers| == d + 1 && attacker == capturers[d]
    && GainsSoFar(turn, m, gains, d, capturers)
    && side == CapturingSide(turn, d + 1)
    && attackers == StandingAttackers(occ, attackersTo)
    && d + fuel == 31
    && capturers[1..] + Recaptures(bitboards, occ, side, attackersTo, fuel)
       == ExchangeLine(bitboards, occupancy, turn, m, attackersTo)
  }

  /** The exchange loop has stopped after `d` captures, at one of its three `break`s. */
  ghost predicate Exit(bitboards: seq<bv64>, occupancy: bv64, turn: Colors.Color, m: MoveFields,
                       attackersTo: bv64 -> bv64, gains: seq<int>, d: nat, capturers: seq<Piece>,
                       occ: bv64, attackers: bv64, side: Colors.Color, fuel: nat)
    requires |bitboards| == 12
  {
    && d + fuel == 32
    && Recorded(turn, m, gains, d, capturers)
    && attackers == StandingAttackers(occ, attackersTo)
    && capturers[1..] + Recaptures(bitboards, occ, side, attackersTo, fuel)
       == ExchangeLine(bitboards, occupancy, turn, m, attackersTo)
    && (d == 32 || Max(-gains[d - 1], gains[d]) < 0
        || LeastKind(bitboards, 6 * Colors.Index(side), attackers, 0) == 6)
  }

  /** A round that finds a recapture and passes the stand-pat test leaves the loop at its head again. */
  lemma GoesOn(bitboards: seq<bv64>, occupancy: bv64, turn: Colors.Color, m: MoveFields,
               attackersTo: bv64 -> bv64, gains: seq<int>, d: nat, d': nat, capturers: seq<Piece>,
               occ: bv64, attackers: bv64, side: Colors.Color, fuel: nat, next: Attacker)
    requires |bitboards| == 12 && d' == d + 1 < 32 && d + fuel == 31
    requires Recorded(turn, m, gains, d', capturers) && Max(-gains[d' - 1], gains[d']) >= 0
    requires side == CapturingSide(turn, d + 1)
    requires attackers == StandingAttackers(occ, attackersTo)
    requires capturers[1..] + Recaptures(bitboards, occ, side, attackersTo, fuel)
             == ExchangeLine(bitboards, occupancy, turn, m, attackersTo)
    requires var k := LeastKind(bitboards, 6 * Colors.Index(side), attackers, 0);
      k < 6 && next == KindAttacker(bitboards, 6 * Colors.Index(side), attackers, k)
    ensures next.from <= 64
    ensures Ongoing(bitboards, occupancy, turn, m, attackersTo, gains, d', capturers + [next.piece], next.piece,
                    Vacate(occ, next.from), StandingAttackers(Vacate(occ, next.from), attackersTo), Colors.Not(side),
                    fuel - 1)
  {
    KindAttackerOwns(bitboards, side, attackers, LeastKind(bitboards, 6 * Colors.Index(side), attackers, 0));
    CapturingSideNext(turn, d');
    GainsStep(turn, m, gains, d', capturers, next.piece);
    LineExtends(bitboards, occ, side, attackersTo, fuel, capturers, ExchangeLine(bitboards, occupancy, turn, m, attackersTo),
                attackers, next);
  }

  /** A round that takes one of the loop's `break`s leaves the loop with the gains recorded and the line complete. */
  lemma Stops(bitboards: seq<bv64>, occupancy: bv64, turn: Colors.Color, m: MoveFields,
              attackersTo: bv64 -> bv64, gain: seq<int>, d: nat, capturers: seq<Piece>, attacker: Piece,
              occ: bv64, attackers: bv64, side: Colors.Color, fuel: nat, gains: seq<int>, d': nat)
    requires |bitboards| == 12 && d' == d + 1
    requires Ongoing(bitboards, occupancy, turn, m, attackersTo, gain, d, capturers, attacker, occ, attackers, side, fuel)
    requires Recorded(turn, m, gains, d', capturers)
    requires d' == 32 || Max(-gains[d' - 1], gains[d']) < 0
             || LeastKind(bitboards, 6 * Colors.Index(side), attackers, 0) == 6
    ensures Exit(bitboards, occupancy, turn, m, attackersTo, gains, d', capturers, occ, attackers, side, fuel)
  {
  }

  /**
   * One pass of the exchange loop: the next index, its gain, the stand-pat
   * test and the search for the least valuable attacker; `stop` when one of
   * the loop's three `break`s is taken.
   */
  method Round(bitboards: seq<bv64>, occupancy: bv64, turn: Colors.Color, m: MoveFields,
               attackersTo: bv64 -> bv64, gain: seq<int>, d: nat, attacker: Piece, ghost capturers: seq<Piece>,
               occ: bv64, attackers: bv64, side: Colors.Color, ghost fuel: nat)
    returns (gain': seq<int>, d': nat, attacker': Piece, ghost capturers': seq<Piece>, occ': bv64,
             attackers': bv64, side': Colors.Color, ghost fuel': nat, stop: bool)
    requires |bitboards| == 12
    requires Ongoing(bitboards, occupancy, turn, m, attackersTo, gain, d, capturers, attacker, occ, attackers, side, fuel)
    ensures d' == d + 1
    ensures !stop ==> Ongoing(bitboards, occupancy, turn, m, attackersTo, gain', d', capturers', attacker',
                              occ', attackers', side', fuel')
    ensures stop ==> Exit(bitboards, occupancy, turn, m, attackersTo, gain', d', capturers', occ', attackers', side', fuel')
  {
    d' := d + 1;
    gain', attacker', capturers', occ', attackers', side', fuel' := gain, attacker, capturers, occ, attackers, side, fuel;
    GainsRecorded(turn, m, gain, d, d', capturers, attacker);
    if d' >= 32 {
      Stops(bitboards, occupancy, turn, m, attackersTo, gain, d, capturers, attacker, occ, attackers, side, fuel, gain', d');
      return gain', d', attacker', capturers', occ', attackers', side', fuel', true;
    }
    gain' := gain[d' := SeeValue(attacker) - gain[d' - 1]];
    if Max(-gain'[d' - 1], gain'[d']) < 0 {
      Stops(bitboards, occupancy, turn, m, attackersTo, gain, d, capturers, attacker, occ, attackers, side, fuel, gain', d');
      return gain', d', attacker', capturers', occ', attackers', side', fuel', true;
    }
    var next := LeastValuableAttacker(bitboards, 6 * Colors.Index(side), attackers);
    if next.None? {
      Stops(bitboards, occupancy, turn, m, attackersTo, gain, d, capturers, attacker, occ, attackers, side, fuel, gain', d');
      return gain', d', attacker', capturers', occ', attackers', side', fuel', true;
    }
    GoesOn(bitboards, occupancy, turn, m, attackersTo, gain', d, d', capturers, occ, attackers, side, fuel, next.value);
    attacker' := next.value.piece;
    capturers' := capturers + [attacker'];
    occ' := Vacate(occ, next.value.from);
    attackers' := StandingAttackers(occ', attackersTo);
    side' := Colors.Not(side);
    fuel' := fuel - 1;
    stop := false;
  }

  /** The stopping rule of the exchange loop, read as the stand-pat test on the exchange's gains. */
  lemma ExchangeStops(gains: seq<int>, d: nat, victim: Piece, capturers: seq<Piece>, line: seq<Piece>)
    requires GainsFollow(gains, d, victim, capturers)
    requires forall k | 1 <= k < d :: Max(-gains[k - 1], gains[k]) >= 0
    requires capturers[1..] == line || (d < 32 && Max(-gains[d - 1], gains[d]) < 0)
    ensures forall k | 1 <= k < |capturers| :: !StandsPat(victim, capturers, k)
    ensures capturers[1..] == line || StandsPat(victim, capturers, |capturers|)
  {
    forall k | 1 <= k < |capturers|
      ensures !StandsPat(victim, capturers, k)
    {
      GainsAreGainAt(gains, d, victim, capturers, k - 1);
      GainsAreGainAt(gains, d, victim, capturers, k);
    }
    if capturers[1..] != line {
      GainsAreGainAt(gains, d, victim, capturers, d - 1);
      GainsAreGainAt(gains, d, victim, capturers, d);
    }
  }

  /**
   * The negamax back-propagation over the first `n` gains: at each step the
   * capturing side takes the smaller of stopping and letting the exchange
   * go on.
   */
  function Resolve(gains: seq<int>, n: nat, j: nat): int
    requires j < n <= |gains|
    decreases n - j
  {
    if j == n - 1 then gains[j] else -Max(-gains[j], Resolve(gains, n, j + 1))
  }

  /**
   * The textbook value of a capture sequence, as an independent reference:
   * capture `j` wins the piece on the square less whatever the opponent wins
   * by recapturing, if recapturing wins anything.
   */
  function ExchangeValue(victims: seq<int>, j: nat): int
    requires j < |victims|
    decreases |victims| - j
  {
    if j == |victims| - 1 then victims[j] else victims[j] - Max(0, ExchangeValue(victims, j + 1))
  }

  /** The values of the pieces on the target before each capture: the victim, then each capturer but the last. */
  function Victims(victim: Piece, capturers: seq<Piece>): (values: seq<int>)
    requires |capturers| >= 1
    ensures |values| == |capturers| && values[0] == SeeValue(victim)
    ensures forall k | 1 <= k < |values| :: values[k] == SeeValue(capturers[k - 1])
  {
    [SeeValue(victim)] + seq(|capturers| - 1, k requires 0 <= k < |capturers| - 1 => SeeValue(capturers[k]))
  }

  lemma {:induction false} ResolveShifted(gains: seq<int>, d: nat, victim: Piece, capturers: seq<Piece>, j: nat)
    requires GainsFollow(gains, d, victim, capturers) && 1 <= j < d
    ensures Resolve(gains, d, j) + gains[j - 1] == ExchangeValue(Victims(victim, capturers), j)
    decreases d - j
  {
    if j < d - 1 {
      ResolveShifted(gains, d, victim, capturers, j + 1);
    }
  }

  /** Back-propagating the recorded gains computes the textbook exchange value. */
  lemma ResolveIsExchangeValue(gains: seq<int>, d: nat, victim: Piece, capturers: seq<Piece>)
    requires GainsFollow(gains, d, victim, capturers)
    ensures Resolve(gains, d, 0) == ExchangeValue(Victims(victim, capturers), 0)
  {
    if d > 1 {
      ResolveShifted(gains, d, victim, capturers, 1);
    }
  }

  /** A capture never wins more than its victim, and loses at most the capturing piece. */
  lemma ExchangeBounds(victim: Piece, capturers: seq<Piece>)
    requires |capturers| >= 1
    ensures var v := ExchangeValue(Victims(victim, capturers), 0);
      && SeeValue(victim) - SeeValue(capturers[0]) <= v <= SeeValue(victim)
      && (|capturers| == 1 ==> v == SeeValue(victim))
  {
    var values := Victims(victim, capturers);
    if |capturers| > 1 {
      assert ExchangeValue(values, 1) <= values[1];
    }
  }

  /**
   * `see` as written: the back-propagation loop updates `gain[d]` from
   * `gain[d + 1]` for `d` down to 1, so the first gain is never revised;
   * after an exchange that ran to index 32 its first step reads past the
   * 32-entry array and the engine panics.
   */
  method PropagateAsWritten(gains: seq<int>, depth: nat) returns (r: Result<int>)
    requires |gains| == 32 && 1 <= depth <= 32
    ensures r.Ok? <==> depth < 32
    ensures r.Ok? ==> r.value == gains[0]
  {
    var gain := new int[32](i => if 0 <= i < |gains| then gains[i] else 0);
    var d := depth;
    while d > 1
      invariant 1 <= d <= depth
      invariant gain[0] == gains[0]
      invariant d == depth || depth < 32
    {
      d := d - 1;
      if d + 1 >= 32 {
        return Err("index out of bounds: the len is 32 but the index is 32");
      }
      gain[d] := -Max(-gain[d], gain[d + 1]);
    }
    return Ok(gain[0]);
  }

  /** The corrected back-propagation: `gain[d - 1]` takes the better of stopping and `gain[d]`, for `d` down to 1. */
  method Propagate(gains: seq<int>, depth: nat) returns (r: int)
    requires |gains| == 32 && 1 <= depth <= 32
    ensures r == Resolve(gains, depth, 0)
  {
    var gain := new int[32](i => if 0 <= i < |gains| then gains[i] else 0);
    var d := depth;
    while d > 1
      invariant 1 <= d <= depth
      invariant gain[d - 1] == Resolve(gains, depth, d - 1)
      invariant forall k | 0 <= k < d - 1 :: gain[k] == gains[k]
    {
      d := d - 1;
      gain[d - 1] := -Max(-gain[d - 1], gain[d]);
    }
    r := gain[0];
  }

  /** `see` as written: every capture is scored at its victim's value, unless the exchange overruns the array. */
  method SeeAsWritten(bitboards: seq<bv64>, occupancy: bv64, turn: Colors.Color, m: MoveFields,
                      attackersTo: bv64 -> bv64)
    returns (r: Result<int>)
    requires |bitboards| == 12
    ensures r.Ok? ==> r.value == SeeValue(m.capture)
    ensures NoRecapture(bitboards, occupancy, turn, m, attackersTo) ==> r == Ok(SeeValue(m.capture))
  {
    var gains, d, capturers := Exchange(bitboards, occupancy, turn, m, attackersTo);
    r := PropagateAsWritten(gains, d);
  }

  /**
   * `see` with the corrected back-propagation: the textbook value of the
   * exchange, between the victim's value less the capturing piece's and the
   * victim's value, and exactly the victim's value when nothing recaptures.
   */
  method See(bitboards: seq<bv64>, occupancy: bv64, turn: Colors.Color, m: MoveFields,
             attackersTo: bv64 -> bv64)
    returns (r: int, ghost capturers: seq<Piece>)
    requires |bitboards| == 12
    ensures |capturers| >= 1 && capturers[0] == m.piece
    ensures PlayedOut(bitboards, occupancy, turn, m, attackersTo, capturers)
    ensures r == ExchangeValue(Victims(m.capture, capturers), 0)
    ensures SeeValue(m.capture) - SeeValue(m.piece) <= r <= SeeValue(m.capture)
    ensures NoRecapture(bitboards, occupancy, turn, m, attackersTo) ==> r == SeeValue(m.capture)
  {
    var gains, d;
    gains, d, capturers := Exchange(bitboards, occupancy, turn, m, attackersTo);
    r := Propagate(gains, d);
    ResolveIsExchangeValue(gains, d, m.capture, capturers);
    ExchangeBounds(m.capture, capturers);
  }

  /**
   * A queen taking a pawn that a pawn defends: the exchange records 100,
   * 800 and -700 and stops at index 2.  The engine as written reports the
   * first gain, +100; the exchange loses the queen for a pawn, -800.
   */
  lemma QueenTakesDefendedPawn(gains: seq<int>)
    requires GainsFollow(gains, 2, BlackPawn, [WhiteQueen, BlackPawn])
    ensures gains[0] == 100 && gains[1] == 800 && gains[2] == -700
    ensures Resolve(gains, 2, 0) == -800
    ensures ExchangeValue(Victims(BlackPawn, [WhiteQueen, BlackPawn]), 0) == -800
  {
    assert gains[1] == SeeValue(WhiteQueen) - gains[0];
  }
}
