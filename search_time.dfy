/**
 * The integer time budget of `set_move_time` (`search/evaluate.rs`): a
 * fixed `movetime` is used for both limits, infinite search and pondering
 * get `u32::MAX`, and otherwise the remaining clock is split over the
 * moves to go (25 when unknown), plus half the increment, capped at a
 * third of the clock.
 */
module TimeManagement {
  import opened Wrappers
  import Colors
  import Fen
  import opened SearchOptionsParsing

  const U32_MAX: nat := 0xFFFF_FFFF

  /** The soft limit (do not start another iteration) and the hard limit (abort), in milliseconds. */
  datatype TimeLimits = TimeLimits(optimum: nat, maximum: nat)

  function Min(a: int, b: int): int { if a <= b then a else b }
  function Max(a: int, b: int): int { if a >= b then a else b }

  function OrZero(v: Option<nat>): nat { if v.Some? then v.value else 0 }

  /** The clock of the side to move. */
  function TimeLeft(o: SearchOptions, turn: Colors.Color): nat {
    if turn == Colors.White then OrZero(o.wtime) else OrZero(o.btime)
  }

  /** The increment of the side to move. */
  function Increment(o: SearchOptions, turn: Colors.Color): nat {
    if turn == Colors.White then OrZero(o.winc) else OrZero(o.binc)
  }

  /** The number of moves the clock must last: `movestogo`, 25 when absent, at least 1. */
  function MovesToGo(o: SearchOptions): (n: nat)
    ensures n >= 1
    ensures o.movestogo.None? ==> n == 25
    ensures o.movestogo.Some? && o.movestogo.value >= 1 ==> n == o.movestogo.value
  {
    Max(if o.movestogo.Some? then o.movestogo.value else 25, 1)
  }

  /** The per-move share before the cap: the clock over the moves to go plus half the increment. */
  function Share(o: SearchOptions, turn: Colors.Color): nat {
    TimeLeft(o, turn) / MovesToGo(o) + Increment(o, turn) / 2
  }

  /**
   * The time budget with the clock arithmetic done exactly: both limits lie
   * between 1 and a third of the clock (or 1 when the clock is short), the
   * soft one never above the hard one.
   */
  function Budget(o: SearchOptions, ponder: bool, turn: Colors.Color): (r: TimeLimits)
    requires Representable(o)
    ensures o.movetime.Some? ==> r == TimeLimits(o.movetime.value, o.movetime.value)
    ensures o.movetime.None? && (o.infinite || ponder) ==> r == TimeLimits(U32_MAX, U32_MAX)
    ensures (o.movetime.None? && !o.infinite && !ponder)
              ==> 1 <= r.optimum <= r.maximum <= Max(1, TimeLeft(o, turn) / 3)
    ensures r.optimum <= r.maximum <= U32_MAX
  {
    if o.movetime.Some? then TimeLimits(o.movetime.value, o.movetime.value)
    else if o.infinite || ponder then TimeLimits(U32_MAX, U32_MAX)
    else
      var base := Share(o, turn);
      var cap := TimeLeft(o, turn) / 3;
      TimeLimits(Max(Min(base, cap), 1), Max(Min(base * 3, cap), 1))
  }

  /** The soft limit is the per-move share, cut to a third of the clock and raised to 1. */
  lemma BudgetOptimum(o: SearchOptions, ponder: bool, turn: Colors.Color)
    requires Representable(o) && o.movetime.None? && !o.infinite && !ponder
    ensures Budget(o, ponder, turn).optimum == Max(1, Min(Share(o, turn), TimeLeft(o, turn) / 3))
    ensures Budget(o, ponder, turn).maximum == Max(1, Min(3 * Share(o, turn), TimeLeft(o, turn) / 3))
  {
  }

  /** Without `movestogo` the budget is the one for 25 moves to go; `movestogo 0` counts as 1. */
  lemma BudgetDefaultMoves(o: SearchOptions, ponder: bool, turn: Colors.Color)
    requires Representable(o)
    ensures o.movestogo.None? ==> Budget(o, ponder, turn) == Budget(o.(movestogo := Some(25)), ponder, turn)
    ensures o.movestogo == Some(0) ==> Budget(o, ponder, turn) == Budget(o.(movestogo := Some(1)), ponder, turn)
  {
  }

  /**
   * `set_move_time` as written, in the engine's release build: the share
   * and its triple are `u32` values, so both wrap around modulo 2^32.
   */
  function BudgetAsWritten(o: SearchOptions, ponder: bool, turn: Colors.Color): (r: TimeLimits)
    requires Representable(o)
    ensures o.movetime.Some? ==> r == TimeLimits(o.movetime.value, o.movetime.value)
    ensures o.movetime.None? && (o.infinite || ponder) ==> r == TimeLimits(U32_MAX, U32_MAX)
    ensures (o.movetime.None? && !o.infinite && !ponder)
              ==> 1 <= r.optimum <= Max(1, TimeLeft(o, turn) / 3) && 1 <= r.maximum <= Max(1, TimeLeft(o, turn) / 3)
  {
    if o.movetime.Some? then TimeLimits(o.movetime.value, o.movetime.value)
    else if o.infinite || ponder then TimeLimits(U32_MAX, U32_MAX)
    else
      var base := Share(o, turn) % Fen.U32_LIMIT;
      var tripled := (base * 3) % Fen.U32_LIMIT;
      var cap := TimeLeft(o, turn) / 3;
      TimeLimits(Max(Min(base, cap), 1), Max(Min(tripled, cap), 1))
  }

  /** While three times the share fits in 32 bits, the release build computes the exact budget. */
  lemma AsWrittenAgrees(o: SearchOptions, ponder: bool, turn: Colors.Color)
    requires Representable(o) && 3 * Share(o, turn) < Fen.U32_LIMIT
    ensures BudgetAsWritten(o, ponder, turn) == Budget(o, ponder, turn)
  {
    var base := Share(o, turn);
    assert base % Fen.U32_LIMIT == base;
    assert (base * 3) % Fen.U32_LIMIT == base * 3;
  }

  /**
   * With 1431655766 ms on White's clock and one move to go, the tripled
   * share wraps to 2: the hard limit falls to 2 ms, far below the soft
   * limit of 477218588 ms.
   */
  lemma BudgetWraps()
    ensures var o := New().(wtime := Some(1431655766), movestogo := Some(1));
      && Representable(o)
      && BudgetAsWritten(o, false, Colors.White) == TimeLimits(477218588, 2)
      && Budget(o, false, Colors.White) == TimeLimits(477218588, 477218588)
  {
    var o := New().(wtime := Some(1431655766), movestogo := Some(1));
    assert MovesToGo(o) == 1 && TimeLeft(o, Colors.White) == 1431655766 && Increment(o, Colors.White) == 0;
    assert Share(o, Colors.White) == 1431655766;
  }
}
