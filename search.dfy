/**
 * The search state of `Evaluator` (`search/evaluate.rs`) that outlives a
 * single node: the killer, history and counter-move tables that order the
 * moves, the time budget of the move, and the hashes of the positions on
 * the current line; with the move-ordering score built from them, the
 * update made on a beta cutoff, and the fail-hard quiescence search.
 *
 * Moves are handled through their decoded fields; the engine compares the
 * packed words, which for well-formed moves is the same comparison, and
 * `BitPackedMove::default()` decodes to `NULL_MOVE`.
 */
module Searching {
  import opened Wrappers
  import Colors
  import opened Pieces
  import opened MoveEffects
  import PrincipalVariations
  import SearchOptionsParsing
  import TimeManagement
  import Evaluation
  import StaticExchange

  const MAX_PLY: nat := 64
  /** The margin of quiescence delta pruning, in centipawns. */
  const DELTA_MARGIN: int := 200

  /** A move that neither captures nor promotes. */
  predicate IsQuiet(m: MoveFields)
  {
    m.capture == Empty && m.promotion == Empty
  }

  /** The MVV-LVA entry of a capture: the victim's kind counts in hundreds, the attacker's breaks ties. */
  function MvvLva(m: MoveFields): (v: int)
    requires m.piece != Empty && m.capture != Empty
    ensures v == 100 * (Index(m.capture) % 6 + 1) + (5 - Index(m.piece) % 6)
    ensures 100 <= v <= 605
  {
    Evaluation.MvvLvaFormula(Index(m.piece), Index(m.capture));
    Evaluation.MVV_LVA[Index(m.piece)][Index(m.capture)]
  }

  /** The killer pair of a ply is either still empty or holds two different moves. */
  predicate KillersSound(first: MoveFields, second: MoveFields)
  {
    first == second ==> first == PrincipalVariations.NULL_MOVE
  }

  /**
   * The killer pair of a ply after a quiet beta cutoff by `pm`: `pm` becomes
   * the first killer and the old first killer moves down, unless `pm` was
   * already the first killer.
   */
  function KillersAfter(first: MoveFields, second: MoveFields, pm: MoveFields): (r: (MoveFields, MoveFields))
    ensures r.0 == pm
    ensures r.1 == if pm == first then second else first
  {
    if first != pm then (pm, first) else (first, second)
  }

  /** A cutoff keeps the two killers of a ply apart. */
  lemma KillersStaySound(first: MoveFields, second: MoveFields, pm: MoveFields)
    requires KillersSound(first, second)
    ensures KillersSound(KillersAfter(first, second, pm).0, KillersAfter(first, second, pm).1)
  {
  }

  /** The number of quiet moves among `ms` that move piece index `p` to square `s`. */
  function QuietCount(ms: seq<MoveFields>, p: int, s: int): (n: nat)
    ensures n <= |ms|
  {
    if |ms| == 0 then 0
    else
      var m := ms[|ms| - 1];
      QuietCount(ms[..|ms| - 1], p, s) + (if IsQuiet(m) && Index(m.piece) == p && m.to as int == s then 1 else 0)
  }

  /** The malus taken from history cell (`p`, `s`) by the quiet moves of `ms`, `amount` for each. */
  function Malus(ms: seq<MoveFields>, amount: int, p: int, s: int): int
  {
    if |ms| == 0 then 0
    else
      var m := ms[|ms| - 1];
      Malus(ms[..|ms| - 1], amount, p, s) + (if IsQuiet(m) && Index(m.piece) == p && m.to as int == s then amount else 0)
  }

  /** Extending the prefix of `ms` by one move adds that move's malus. */
  lemma MalusStep(ms: seq<MoveFields>, i: nat, amount: int)
    requires i < |ms|
    ensures forall p, s :: Malus(ms[..i + 1], amount, p, s)
              == Malus(ms[..i], amount, p, s)
                 + (if IsQuiet(ms[i]) && Index(ms[i].piece) == p && ms[i].to as int == s then amount else 0)
  {
    assert ms[..i + 1][..i] == ms[..i];
  }

  /** The malus of a cell is the amount once per quiet move to it. */
  lemma {:induction false} MalusCounts(ms: seq<MoveFields>, amount: int, p: int, s: int)
    ensures Malus(ms, amount, p, s) == amount * QuietCount(ms, p, s)
  {
    if |ms| > 0 {
      MalusCounts(ms[..|ms| - 1], amount, p, s);
    }
  }

  /**
   * The change a quiet cutoff by `pm` at `depth` makes to history cell
   * (`p`, `s`): the cutoff move gains depth squared, and each quiet move
   * searched before it loses depth squared.
   */
  function HistoryChange(earlier: seq<MoveFields>, pm: MoveFields, depth: nat, p: int, s: int): int
  {
    (if Index(pm.piece) == p && pm.to as int == s then depth * depth else 0)
      - Malus(earlier, depth * depth, p, s)
  }

  /** Mate and stalemate: `-49000 + ply` for the side in check, so nearer mates score lower, and 0 otherwise. */
  function NoMoveScore(inCheck: bool, ply: nat): (score: int)
    ensures inCheck ==> score == -49000 + ply
    ensures !inCheck ==> score == 0
  {
    if inCheck then -49000 + ply else 0
  }

  /** Being mated sooner is worse, and every mate within the ply cap is worse than a stalemate. */
  lemma MateScoresOrder(ply1: nat, ply2: nat)
    requires ply1 < ply2 < MAX_PLY
    ensures NoMoveScore(true, ply1) < NoMoveScore(true, ply2) < NoMoveScore(false, ply1)
  {
  }

  /** How often `hash` occurs among the positions of the current line. */
  function Occurrences(table: seq<bv64>, hash: bv64): (n: nat)
    ensures n <= |table|
  {
    if |table| == 0 then 0
    else Occurrences(table[..|table| - 1], hash) + (if table[|table| - 1] == hash then 1 else 0)
  }

  /** Occurrences of a hash in a concatenation add up. */
  lemma {:induction false} OccurrencesAppend(a: seq<bv64>, b: seq<bv64>, hash: bv64)
    ensures Occurrences(a + b, hash) == Occurrences(a, hash) + Occurrences(b, hash)
    decreases |b|
  {
    if |b| == 0 {
      assert a + b == a;
    } else {
      assert (a + b)[..|a + b| - 1] == a + b[..|b| - 1];
      OccurrencesAppend(a, b[..|b| - 1], hash);
    }
  }

  /** negamax's repetition test: a position met twice before on the line is scored -15. */
  function RepetitionScore(table: seq<bv64>, hash: bv64): (r: Option<int>)
    ensures r.Some? <==> Occurrences(table, hash) >= 2
    ensures r.Some? ==> r.value == -15
  {
    if Occurrences(table, hash) >= 2 then Some(-15) else None
  }

  /** A hash occurs on the line exactly when some entry of the line is that hash. */
  lemma {:induction false} OccursOnce(table: seq<bv64>, hash: bv64)
    ensures Occurrences(table, hash) >= 1 <==> hash in table
    decreases |table|
  {
    if |table| > 0 {
      var p := table[..|table| - 1];
      OccursOnce(p, hash);
      assert table == p + [table[|table| - 1]];
    }
  }

  /** The repetition test fires exactly when two distinct plies of the line hold the position's hash. */
  lemma {:induction false} RepetitionSeenTwice(table: seq<bv64>, hash: bv64)
    ensures RepetitionScore(table, hash).Some?
            <==> exists i, j | 0 <= i < j < |table| :: table[i] == hash && table[j] == hash
    decreases |table|
  {
    if |table| > 0 {
      var n := |table|;
      var p := table[..n - 1];
      RepetitionSeenTwice(p, hash);
      OccursOnce(p, hash);
      if Occurrences(table, hash) >= 2 {
        if Occurrences(p, hash) >= 2 {
          var i, j :| 0 <= i < j < |p| && p[i] == hash && p[j] == hash;
          assert table[i] == hash && table[j] == hash;
        } else {
          var i :| 0 <= i < |p| && p[i] == hash;
          assert table[i] == hash && table[n - 1] == hash;
        }
      }
      if exists i, j | 0 <= i < j < n :: table[i] == hash && table[j] == hash {
        var i, j :| 0 <= i < j < n && table[i] == hash && table[j] == hash;
        if j < n - 1 {
          assert p[i] == hash && p[j] == hash;
        } else {
          assert p[i] == hash;
        }
      }
    }
  }

  /** A position pushed onto the line twice is a repetition wherever it recurs. */
  lemma RepeatedTwice(before: seq<bv64>, between: seq<bv64>, after: seq<bv64>, hash: bv64)
    ensures RepetitionScore(before + [hash] + between + [hash] + after, hash) == Some(-15)
  {
    OccurrencesAppend(before + [hash] + between + [hash], after, hash);
    OccurrencesAppend(before + [hash] + between, [hash], hash);
    OccurrencesAppend(before + [hash], between, hash);
    OccurrencesAppend(before, [hash], hash);
    assert Occurrences([hash], hash) == 1 by {
      assert [hash][..0] == [];
    }
  }

  /**
   * The position the pick-best scan settles on among positions `idx` to
   * `n - 1`: the first of the highest scores, as a scan upwards that only
   * moves on a strictly higher score finds it.
   */
  function FirstBest(s: seq<Evaluation.Scored>, idx: nat, n: nat): (b: nat)
    requires idx < n <= |s|
    ensures idx <= b < n
    ensures forall j | idx <= j < n :: s[j].score <= s[b].score
    ensures forall j | idx <= j < b :: s[j].score < s[b].score
  {
    if n == idx + 1 then idx
    else
      var b := FirstBest(s, idx, n - 1);
      if s[n - 1].score > s[b].score then n - 1 else b
  }

  /** The list with the entries at `i` and `j` exchanged. */
  function SwapAt(s: seq<Evaluation.Scored>, i: nat, j: nat): (t: seq<Evaluation.Scored>)
    requires i < |s| && j < |s|
    ensures |t| == |s| && t[i] == s[j] && t[j] == s[i]
    ensures forall k | 0 <= k < |s| && k != i && k != j :: t[k] == s[k]
  {
    s[i := s[j]][j := s[i]]
  }

  /**
   * After a pick-best step the list is a permutation of what it was, the
   * positions before `idx` are untouched, and position `idx` holds a
   * highest score of the rest.
   */
  lemma PickedIsBest(s: seq<Evaluation.Scored>, idx: nat)
    requires idx < |s|
    ensures var t := SwapAt(s, idx, FirstBest(s, idx, |s|));
      && multiset(t) == multiset(s)
      && t[..idx] == s[..idx]
      && forall j | idx <= j < |t| :: t[j].score <= t[idx].score
  {
    var b := FirstBest(s, idx, |s|);
    var t := SwapAt(s, idx, b);
    assert t == s[idx := s[b]][b := s[idx]];
    assert forall j | idx <= j < |t| :: t[j].score <= t[idx].score by {
      forall j | idx <= j < |t|
        ensures t[j].score <= t[idx].score
      {
        if j != idx && j != b {
          assert t[j] == s[j];
        }
      }
    }
  }

  /**
   * The pick-best step of negamax and quiescence: the first highest-scored
   * move at or after `idx` is swapped into position `idx`.
   */
  method PickBest(moves: array<Evaluation.Scored>, idx: nat)
    requires idx < moves.Length
    modifies moves
    ensures moves[..] == SwapAt(old(moves[..]), idx, FirstBest(old(moves[..]), idx, moves.Length))
  {
    var best := idx;
    for i := idx + 1 to moves.Length
      invariant best == FirstBest(moves[..], idx, i)
    {
      if moves[i].score > moves[best].score {
        best := i;
      }
    }
    moves[idx], moves[best] := moves[best], moves[idx];
  }

  /**
   * Why quiescence passes over a move: it is not a capture; it is a
   * non-promoting capture that cannot lift the static score to `alpha` even
   * with the delta margin; it loses material by static exchange; or it
   * leaves the king in check.
   */
  predicate QuiescenceSkips(m: MoveFields, standPat: int, alpha: int, seeScore: int, legal: bool)
  {
    || m.capture == Empty
    || (standPat + StaticExchange.SeeValue(m.capture) + DELTA_MARGIN < alpha && m.promotion == Empty)
    || seeScore < 0
    || !legal
  }

  class Evaluator {
    /** `killer_moves[k][ply]`: the last two quiet moves that caused a cutoff at each ply. */
    var killerMoves: array2<MoveFields>
    /** `history_moves[piece][to]`: how well moving a piece to a square has done in cutoffs. */
    var historyMoves: array2<int>
    /** `counter_move_table[from][to]`: the move that last refuted the move from `from` to `to`. */
    var counterMoveTable: array2<MoveFields>
    /** `repetition_table`: the hashes of the positions on the current line. */
    var repetitionTable: seq<bv64>
    /** `result.ply`: the distance from the root. */
    var ply: nat
    var options: SearchOptionsParsing.SearchOptions
    var optimumTime: nat
    var maximumTime: nat

    ghost predicate Valid()
      reads this, killerMoves
    {
      && killerMoves.Length0 == 2 && killerMoves.Length1 == MAX_PLY
      && historyMoves.Length0 == 12 && historyMoves.Length1 == 64
      && counterMoveTable.Length0 == 64 && counterMoveTable.Length1 == 64
      && killerMoves != counterMoveTable
      && forall p | 0 <= p < MAX_PLY :: KillersSound(killerMoves[0, p], killerMoves[1, p])
    }

    /** `Evaluator::new`: empty tables, an empty line at ply 0, default options and no time budget. */
    constructor ()
      ensures Valid() && fresh(killerMoves) && fresh(historyMoves) && fresh(counterMoveTable)
      ensures forall k, p | 0 <= k < 2 && 0 <= p < MAX_PLY :: killerMoves[k, p] == PrincipalVariations.NULL_MOVE
      ensures forall i, s | 0 <= i < 12 && 0 <= s < 64 :: historyMoves[i, s] == 0
      ensures forall f, t | 0 <= f < 64 && 0 <= t < 64 :: counterMoveTable[f, t] == PrincipalVariations.NULL_MOVE
      ensures repetitionTable == [] && ply == 0 && options == SearchOptionsParsing.New()
      ensures optimumTime == 0 && maximumTime == 0
    {
      killerMoves := new MoveFields[2, MAX_PLY]((_, _) => PrincipalVariations.NULL_MOVE);
      historyMoves := new int[12, 64]((_, _) => 0);
      counterMoveTable := new MoveFields[64, 64]((_, _) => PrincipalVariations.NULL_MOVE);
      repetitionTable := [];
      ply := 0;
      options := SearchOptionsParsing.New();
      optimumTime := 0;
      maximumTime := 0;
    }

    /**
     * `set_move_time`, with the clock arithmetic done exactly: the soft and
     * hard limits become the budget for the side to move.
     */
    method SetMoveTime(turn: Colors.Color, ponder: bool)
      requires SearchOptionsParsing.Representable(options)
      modifies this
      ensures options == old(options)
      ensures TimeManagement.TimeLimits(optimumTime, maximumTime) == TimeManagement.Budget(options, ponder, turn)
      ensures killerMoves == old(killerMoves) && historyMoves == old(historyMoves)
      ensures counterMoveTable == old(counterMoveTable) && repetitionTable == old(repetitionTable)
      ensures ply == old(ply)
    {
      if options.movetime.Some? {
        optimumTime := options.movetime.value;
        maximumTime := options.movetime.value;
        return;
      }
      if options.infinite || ponder {
        optimumTime := TimeManagement.U32_MAX;
        maximumTime := TimeManagement.U32_MAX;
        return;
      }
      var timeLeft := TimeManagement.TimeLeft(options, turn);
      var increment := TimeManagement.Increment(options, turn);
      var moves := TimeManagement.Max(if options.movestogo.Some? then options.movestogo.value else 25, 1);
      var base := timeLeft / moves + increment / 2;
      var hardCap := timeLeft / 3;
      optimumTime := TimeManagement.Max(TimeManagement.Min(base, hardCap), 1);
      maximumTime := TimeManagement.Max(TimeManagement.Min(base * 3, hardCap), 1);
    }

    /**
     * The ordering band of a move, best first: 7 the transposition-table
     * move, 6 a capture that does not lose material, 5 a promotion, 4 and 3
     * the two killers of the ply, 2 the counter move to the previous move,
     * 1 any other quiet move, 0 a capture that loses material.
     */
    function Rank(m: MoveFields, ttMove: MoveFields, lastMove: Option<MoveFields>, seeScore: int): (r: nat)
      requires Valid()
      reads this, killerMoves, counterMoveTable
      ensures r <= 7
    {
      if m == ttMove && ttMove != PrincipalVariations.NULL_MOVE then 7
      else if m.capture != Empty then (if seeScore >= 0 then 6 else 0)
      else if m.promotion != Empty then 5
      else if ply < MAX_PLY && killerMoves[0, ply] == m then 4
      else if ply < MAX_PLY && killerMoves[1, ply] == m then 3
      else if lastMove.Some? && m != PrincipalVariations.NULL_MOVE
              && counterMoveTable[lastMove.value.from as int, lastMove.value.to as int] == m then 2
      else 1
    }

    /**
     * `get_move_score`: the ordering score of a move, given the static
     * exchange value of a capture.  Each band gets its constant, good and
     * bad captures their MVV-LVA entry offset by a million either way, and
     * other quiet moves their history value.
     */
    function MoveScore(m: MoveFields, ttMove: MoveFields, lastMove: Option<MoveFields>, seeScore: int): (score: int)
      requires Valid() && m.piece != Empty
      reads this, killerMoves, counterMoveTable, historyMoves
      ensures Rank(m, ttMove, lastMove, seeScore) == 7 ==> score == 10_000_000
      ensures Rank(m, ttMove, lastMove, seeScore) == 6 ==> 1_000_100 <= score <= 1_000_605
      ensures Rank(m, ttMove, lastMove, seeScore) == 5 ==> score == 900_000
      ensures Rank(m, ttMove, lastMove, seeScore) == 4 ==> score == 800_001
      ensures Rank(m, ttMove, lastMove, seeScore) == 3 ==> score == 800_000
      ensures Rank(m, ttMove, lastMove, seeScore) == 2 ==> score == 700_000
      ensures Rank(m, ttMove, lastMove, seeScore) == 1 ==> score == historyMoves[Index(m.piece), m.to as int]
      ensures Rank(m, ttMove, lastMove, seeScore) == 0 ==> -999_900 <= score <= -999_395
    {
      if m == ttMove && ttMove != PrincipalVariations.NULL_MOVE then 10_000_000
      else if m.capture != Empty then
        if seeScore >= 0 then 1_000_000 + MvvLva(m) else -1_000_000 + MvvLva(m)
      else if m.promotion != Empty then 900_000
      else if ply < MAX_PLY && killerMoves[0, ply] == m then 800_001
      else if ply < MAX_PLY && killerMoves[1, ply] == m then 800_000
      else if lastMove.Some? && counterMoveTable[lastMove.value.from as int, lastMove.value.to as int] == m
              && m != PrincipalVariations.NULL_MOVE then 700_000
      else historyMoves[Index(m.piece), m.to as int]
    }

    /**
     * While every history value lies strictly between a losing capture's
     * and a counter move's score, a move in a better band always scores
     * higher.
     */
    lemma RankOrdersScores(a: MoveFields, b: MoveFields, ttMove: MoveFields, lastMove: Option<MoveFields>,
                           seeA: int, seeB: int)
      requires Valid() && a.piece != Empty && b.piece != Empty
      requires forall p, s | 0 <= p < 12 && 0 <= s < 64 :: -999_395 < historyMoves[p, s] < 700_000
      requires Rank(a, ttMove, lastMove, seeA) > Rank(b, ttMove, lastMove, seeB)
      ensures MoveScore(a, ttMove, lastMove, seeA) > MoveScore(b, ttMove, lastMove, seeB)
    {
      var ra, rb := Rank(a, ttMove, lastMove, seeA), Rank(b, ttMove, lastMove, seeB);
      var sa, sb := MoveScore(a, ttMove, lastMove, seeA), MoveScore(b, ttMove, lastMove, seeB);
      if ra == 1 {
        assert sa == historyMoves[Index(a.piece), a.to as int];
      }
      if rb == 1 {
        assert sb == historyMoves[Index(b.piece), b.to as int];
      }
    }

    /**
     * The table updates of a beta cutoff by `pm`, the move at position
     * `moveIdx - 1` of the list as tried: after a quiet cutoff the killers
     * of the ply shift, history rewards `pm` and penalises every quiet move
     * tried before it; after any cutoff `pm` becomes the counter move to its
     * own from and to squares.  Nothing else changes.
     */
    method RecordCutoff(pm: MoveFields, depth: nat, moves: seq<MoveFields>, moveIdx: nat)
      requires Valid() && ply < MAX_PLY
      requires 1 <= moveIdx <= |moves| && moves[moveIdx - 1] == pm
      requires forall i | 0 <= i < |moves| :: moves[i].piece != Empty
      modifies killerMoves, historyMoves, counterMoveTable
      ensures Valid()
      ensures IsQuiet(pm) ==>
                (killerMoves[0, ply], killerMoves[1, ply])
                == KillersAfter(old(killerMoves[0, ply]), old(killerMoves[1, ply]), pm)
      ensures forall k, p | 0 <= k < 2 && 0 <= p < MAX_PLY && (p != ply || !IsQuiet(pm))
                :: killerMoves[k, p] == old(killerMoves[k, p])
      ensures forall p, s | 0 <= p < 12 && 0 <= s < 64 ::
                historyMoves[p, s]
                == old(historyMoves[p, s]) + (if IsQuiet(pm) then HistoryChange(moves[..moveIdx - 1], pm, depth, p, s) else 0)
      ensures forall f, t | 0 <= f < 64 && 0 <= t < 64 ::
                counterMoveTable[f, t] == if f == pm.from as int && t == pm.to as int then pm else old(counterMoveTable[f, t])
    {
      if IsQuiet(pm) {
        ShiftKillers(pm);
        UpdateHistory(pm, depth, moves, moveIdx);
      }
      SetCounterMove(pm);
    }

    /** The killer part of a quiet cutoff: `pm` becomes the ply's first killer, the old first moves down. */
    method ShiftKillers(pm: MoveFields)
      requires Valid() && ply < MAX_PLY
      modifies killerMoves
      ensures Valid()
      ensures (killerMoves[0, ply], killerMoves[1, ply])
              == KillersAfter(old(killerMoves[0, ply]), old(killerMoves[1, ply]), pm)
      ensures forall k, p | 0 <= k < 2 && 0 <= p < MAX_PLY && p != ply :: killerMoves[k, p] == old(killerMoves[k, p])
    {
      KillersStaySound(killerMoves[0, ply], killerMoves[1, ply], pm);
      if killerMoves[0, ply] != pm {
        killerMoves[1, ply] := killerMoves[0, ply];
        killerMoves[0, ply] := pm;
      }
    }

    /** The counter-move part of a cutoff: `pm` answers the move from its own from square to its own to square. */
    method SetCounterMove(pm: MoveFields)
      requires counterMoveTable.Length0 == 64 && counterMoveTable.Length1 == 64
      modifies counterMoveTable
      ensures forall f, t | 0 <= f < 64 && 0 <= t < 64 ::
                counterMoveTable[f, t] == if f == pm.from as int && t == pm.to as int then pm else old(counterMoveTable[f, t])
    {
      counterMoveTable[pm.from as int, pm.to as int] := pm;
    }

    /** The history part of a quiet cutoff: the bonus for `pm`, then the malus loop over the moves tried before it. */
    method UpdateHistory(pm: MoveFields, depth: nat, moves: seq<MoveFields>, moveIdx: nat)
      requires historyMoves.Length0 == 12 && historyMoves.Length1 == 64 && pm.piece != Empty
      requires 1 <= moveIdx <= |moves|
      requires forall i | 0 <= i < |moves| :: moves[i].piece != Empty
      modifies historyMoves
      ensures forall p, s | 0 <= p < 12 && 0 <= s < 64 ::
                historyMoves[p, s] == old(historyMoves[p, s]) + HistoryChange(moves[..moveIdx - 1], pm, depth, p, s)
    {
      var bonus := depth * depth;
      historyMoves[Index(pm.piece), pm.to as int] := historyMoves[Index(pm.piece), pm.to as int] + bonus;
      var i := 0;
      while i < moveIdx - 1
        invariant 0 <= i <= moveIdx - 1
        invariant forall p, s | 0 <= p < 12 && 0 <= s < 64 ::
                    historyMoves[p, s] == old(historyMoves[p, s])
                      + (if Index(pm.piece) == p && pm.to as int == s then bonus else 0) - Malus(moves[..i], bonus, p, s)
      {
        Penalise(moves[i], bonus);
        MalusStep(moves, i, bonus);
        i := i + 1;
      }
    }

    /** One step of the malus loop: a quiet move loses `amount` on its own cell. */
    method Penalise(prev: MoveFields, amount: int)
      requires historyMoves.Length0 == 12 && historyMoves.Length1 == 64 && prev.piece != Empty
      modifies historyMoves
      ensures forall p, s | 0 <= p < 12 && 0 <= s < 64 ::
                historyMoves[p, s] == old(historyMoves[p, s])
                  - (if IsQuiet(prev) && Index(prev.piece) == p && prev.to as int == s then amount else 0)
    {
      if IsQuiet(prev) {
        historyMoves[Index(prev.piece), prev.to as int] := historyMoves[Index(prev.piece), prev.to as int] - amount;
      }
    }

    /**
     * `score_moves`: each generated move paired with its ordering score,
     * given the transposition-table move, the previous move and the static
     * exchange value of each move.
     */
    method ScoreMoves(moves: seq<MoveFields>, ttMove: MoveFields, lastMove: Option<MoveFields>,
                      see: MoveFields -> int) returns (scored: array<Evaluation.Scored>)
      requires Valid()
      requires forall i | 0 <= i < |moves| :: moves[i].piece != Empty
      ensures fresh(scored) && scored.Length == |moves|
      ensures forall i | 0 <= i < |moves| ::
                scored[i] == Evaluation.Scored(moves[i], MoveScore(moves[i], ttMove, lastMove, see(moves[i])))
    {
      scored := new Evaluation.Scored[|moves|];
      for i := 0 to |moves|
        invariant forall j | 0 <= j < i ::
                    scored[j] == Evaluation.Scored(moves[j], MoveScore(moves[j], ttMove, lastMove, see(moves[j])))
      {
        scored[i] := Evaluation.Scored(moves[i], MoveScore(moves[i], ttMove, lastMove, see(moves[i])));
      }
    }

    /**
     * One node of `quiescence`, fail-hard: the static score `standPat`
     * answers at the ply cap and when it already reaches `beta`; a position
     * no capture can rescue returns `alpha0`; otherwise the captures are
     * tried best first from `moves`, `child` giving each one's score from
     * the opponent's side for the narrowed window, and `runningAfter` telling
     * whether time is left after it.  `aborted` records a stop for time,
     * which scores 0.
     */
    method Quiescence(standPat: int, alpha0: int, beta: int, moves: array<Evaluation.Scored>,
                      see: MoveFields -> int, legal: MoveFields -> bool,
                      child: (MoveFields, int, int) -> int, runningAfter: MoveFields -> bool)
      returns (r: int, ghost aborted: bool)
      modifies moves
      ensures multiset(moves[..]) == multiset(old(moves[..]))
      ensures aborted ==> r == 0 && ply < MAX_PLY - 1
      ensures ply >= MAX_PLY - 1 ==> r == standPat && !aborted
      ensures ply < MAX_PLY - 1 && standPat >= beta ==> r == beta && !aborted
      ensures (ply < MAX_PLY - 1 && standPat < beta
               && standPat + StaticExchange.SeeValue(WhiteQueen) + DELTA_MARGIN < alpha0) ==> r == alpha0 && !aborted
      ensures (ply < MAX_PLY - 1 && standPat < beta && alpha0 < beta && !aborted
               && standPat + StaticExchange.SeeValue(WhiteQueen) + DELTA_MARGIN >= alpha0)
                ==> TimeManagement.Max(alpha0, standPat) <= r <= beta
    {
      if ply >= MAX_PLY - 1 {
        return standPat, false;
      }
      if standPat >= beta {
        return beta, false;
      }
      if standPat + StaticExchange.SeeValue(WhiteQueen) + DELTA_MARGIN < alpha0 {
        return alpha0, false;
      }
      var alpha := alpha0;
      if alpha < standPat {
        alpha := standPat;
      }
      var idx := 0;
      while idx < moves.Length
        invariant 0 <= idx <= moves.Length
        invariant multiset(moves[..]) == multiset(old(moves[..]))
        invariant TimeManagement.Max(alpha0, standPat) <= alpha
        invariant alpha0 < beta ==> alpha < beta
      {
        PickedIsBest(moves[..], idx);
        PickBest(moves, idx);
        var pm := moves[idx].m;
        idx := idx + 1;
        if QuiescenceSkips(pm, standPat, alpha, see(pm), legal(pm)) {
          continue;
        }
        var score := -child(pm, -beta, -alpha);
        if !runningAfter(pm) {
          return 0, true;
        }
        if score >= beta {
          return beta, false;
        }
        if score > alpha {
          alpha := score;
        }
      }
      return alpha, false;
    }
  }
}
