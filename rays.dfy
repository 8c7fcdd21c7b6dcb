// Board geometry: ranks, files, the eight ray directions, and the slider
// attack set along one ray, stopped by the first blocker.

module Rays {
  import opened Bits

  /** Square with rank index `r` and file index `f`, as the engine computes it: r * 8 + f. */
  lemma SquareOfRankFile(r: bv6, f: bv6)
    requires r < 8 && f < 8
    ensures RankOf(r * 8 + f) == r && FileOf(r * 8 + f) == f
  {
  }

  lemma RankFileRange(s: Square)
    ensures RankOf(s) < 8 && FileOf(s) < 8
  {
  }

  /** A square is determined by its rank and file. */
  lemma SquareEq(s: Square, t: Square)
    requires RankOf(s) == RankOf(t) && FileOf(s) == FileOf(t)
    ensures s == t
  {
  }

  /**
   * Ray directions.  Rank index 0 is the 8th rank, so North lowers the
   * rank index and South raises it; East raises the file index.
   */
  datatype Direction = North | South | East | West | NorthEast | NorthWest | SouthEast | SouthWest

  /** Moving one step in direction d would leave the board. */
  predicate AtEdge(s: Square, d: Direction) {
    match d
    case North => RankOf(s) == 0
    case South => RankOf(s) == 7
    case East => FileOf(s) == 7
    case West => FileOf(s) == 0
    case NorthEast => RankOf(s) == 0 || FileOf(s) == 7
    case NorthWest => RankOf(s) == 0 || FileOf(s) == 0
    case SouthEast => RankOf(s) == 7 || FileOf(s) == 7
    case SouthWest => RankOf(s) == 7 || FileOf(s) == 0
  }

  /** The neighbouring square in direction d: the index offsets are -8, +8, +1, -1, -7, -9, +9, +7. */
  function Step(s: Square, d: Direction): (n: Square)
    requires !AtEdge(s, d)
    ensures Room(n, d) < Room(s, d)
  {
    match d
    case North => StepNorth(s); s - 8
    case South => StepSouth(s); s + 8
    case East => StepEast(s); s + 1
    case West => StepWest(s); s - 1
    case NorthEast => StepNorthEast(s); s - 7
    case NorthWest => StepNorthWest(s); s - 9
    case SouthEast => StepSouthEast(s); s + 9
    case SouthWest => StepSouthWest(s); s + 7
  }

  function Min(a: bv6, b: bv6): bv6 { if a < b then a else b }

  /** Steps left before the edge: the measure that makes rays finite. */
  function Room(s: Square, d: Direction): bv6 {
    var r, f := RankOf(s), FileOf(s);
    match d
    case North => r
    case South => 7 - r
    case East => 7 - f
    case West => f
    case NorthEast => Min(r, 7 - f)
    case NorthWest => Min(r, f)
    case SouthEast => Min(7 - r, 7 - f)
    case SouthWest => Min(7 - r, f)
  }

  /** One step moves the rank by -1, 0 or +1 and the file likewise, as its direction says. */
  lemma StepNorth(s: Square)
    requires RankOf(s) != 0
    ensures RankOf(s - 8) == RankOf(s) - 1 && FileOf(s - 8) == FileOf(s)
    ensures Room(s - 8, North) < Room(s, North)
  {
  }

  lemma StepSouth(s: Square)
    requires RankOf(s) != 7
    ensures RankOf(s + 8) == RankOf(s) + 1 && FileOf(s + 8) == FileOf(s)
    ensures Room(s + 8, South) < Room(s, South)
  {
  }

  lemma StepEast(s: Square)
    requires FileOf(s) != 7
    ensures RankOf(s + 1) == RankOf(s) && FileOf(s + 1) == FileOf(s) + 1
    ensures Room(s + 1, East) < Room(s, East)
  {
  }

  lemma StepWest(s: Square)
    requires FileOf(s) != 0
    ensures RankOf(s - 1) == RankOf(s) && FileOf(s - 1) == FileOf(s) - 1
    ensures Room(s - 1, West) < Room(s, West)
  {
  }

  lemma StepNorthEast(s: Square)
    requires RankOf(s) != 0 && FileOf(s) != 7
    ensures RankOf(s - 7) == RankOf(s) - 1 && FileOf(s - 7) == FileOf(s) + 1
    ensures Room(s - 7, NorthEast) < Room(s, NorthEast)
  {
  }

  lemma StepNorthWest(s: Square)
    requires RankOf(s) != 0 && FileOf(s) != 0
    ensures RankOf(s - 9) == RankOf(s) - 1 && FileOf(s - 9) == FileOf(s) - 1
    ensures Room(s - 9, NorthWest) < Room(s, NorthWest)
  {
  }

  lemma StepSouthEast(s: Square)
    requires RankOf(s) != 7 && FileOf(s) != 7
    ensures RankOf(s + 9) == RankOf(s) + 1 && FileOf(s + 9) == FileOf(s) + 1
    ensures Room(s + 9, SouthEast) < Room(s, SouthEast)
  {
  }

  lemma StepSouthWest(s: Square)
    requires RankOf(s) != 7 && FileOf(s) != 0
    ensures RankOf(s + 7) == RankOf(s) + 1 && FileOf(s + 7) == FileOf(s) - 1
    ensures Room(s + 7, SouthWest) < Room(s, SouthWest)
  {
  }

  /** t lies beyond s in direction d (any distance, s itself excluded). */
  predicate OnRay(s: Square, d: Direction, t: Square) {
    var rs, fs, rt, ft := RankOf(s), FileOf(s), RankOf(t), FileOf(t);
    match d
    case North => ft == fs && rt < rs
    case South => ft == fs && rt > rs
    case East => rt == rs && ft > fs
    case West => rt == rs && ft < fs
    case NorthEast => rs - rt == ft - fs && rt < rs
    case NorthWest => rs - rt == fs - ft && rt < rs
    case SouthEast => rt - rs == ft - fs && rt > rs
    case SouthWest => rt - rs == fs - ft && rt > rs
  }


  lemma OnRayStep(s: Square, d: Direction, t: Square)
    requires !AtEdge(s, d)
    ensures OnRay(s, d, t) <==> t == Step(s, d) || OnRay(Step(s, d), d, t)
  {
    match d
    case North => OnRayStepNorth(s, t);
    case South => OnRayStepSouth(s, t);
    case East => OnRayStepEast(s, t);
    case West => OnRayStepWest(s, t);
    case NorthEast => OnRayStepNorthEast(s, t);
    case NorthWest => OnRayStepNorthWest(s, t);
    case SouthEast => OnRayStepSouthEast(s, t);
    case SouthWest => OnRayStepSouthWest(s, t);
  }

  lemma OnRayStepNorth(s: Square, t: Square)
    requires !AtEdge(s, North)
    ensures OnRay(s, North, t) <==> t == s - 8 || OnRay(s - 8, North, t)
  {
  }

  lemma OnRayStepSouth(s: Square, t: Square)
    requires !AtEdge(s, South)
    ensures OnRay(s, South, t) <==> t == s + 8 || OnRay(s + 8, South, t)
  {
  }

  lemma OnRayStepEast(s: Square, t: Square)
    requires !AtEdge(s, East)
    ensures OnRay(s, East, t) <==> t == s + 1 || OnRay(s + 1, East, t)
  {
  }

  lemma OnRayStepWest(s: Square, t: Square)
    requires !AtEdge(s, West)
    ensures OnRay(s, West, t) <==> t == s - 1 || OnRay(s - 1, West, t)
  {
  }

  lemma OnRayStepNorthEast(s: Square, t: Square)
    requires !AtEdge(s, NorthEast)
    ensures OnRay(s, NorthEast, t) <==> t == s - 7 || OnRay(s - 7, NorthEast, t)
  {
  }

  lemma OnRayStepNorthWest(s: Square, t: Square)
    requires !AtEdge(s, NorthWest)
    ensures OnRay(s, NorthWest, t) <==> t == s - 9 || OnRay(s - 9, NorthWest, t)
  {
  }

  lemma OnRayStepSouthEast(s: Square, t: Square)
    requires !AtEdge(s, SouthEast)
    ensures OnRay(s, SouthEast, t) <==> t == s + 9 || OnRay(s + 9, SouthEast, t)
  {
  }

  lemma OnRayStepSouthWest(s: Square, t: Square)
    requires !AtEdge(s, SouthWest)
    ensures OnRay(s, SouthWest, t) <==> t == s + 7 || OnRay(s + 7, SouthWest, t)
  {
  }

  /**
   * The attack set of a slider on s along d: every square up to and
   * including the first one occupied in `blockers`.
   */
  ghost function RaySet(s: Square, d: Direction, blockers: bv64): set<Square>
    decreases Room(s, d)
  {
    if AtEdge(s, d) then {}
    else
      var n := Step(s, d);
      if Bit(blockers, n) then {n} else RaySet(n, d, blockers) + {n}
  }

  lemma OnRayEdge(s: Square, d: Direction, t: Square)
    requires AtEdge(s, d)
    ensures !OnRay(s, d, t)
  {
  }

  lemma OnRayOrdered(s: Square, d: Direction, u: Square)
    ensures !(OnRay(s, d, u) && OnRay(u, d, s))
    ensures !OnRay(s, d, s)
  {
  }

  /** No square strictly between s and t along d is in `blockers`. */
  ghost predicate Clear(s: Square, d: Direction, t: Square, blockers: bv64) {
    forall u: Square :: OnRay(s, d, u) && OnRay(u, d, t) ==> !Bit(blockers, u)
  }

  lemma ClearStep(s: Square, d: Direction, t: Square, blockers: bv64)
    requires !AtEdge(s, d) && OnRay(Step(s, d), d, t)
    ensures Clear(s, d, t, blockers) <==> !Bit(blockers, Step(s, d)) && Clear(Step(s, d), d, t, blockers)
  {
    var n := Step(s, d);
    forall u: Square
      ensures OnRay(s, d, u) && OnRay(u, d, t) <==> u == n || (OnRay(n, d, u) && OnRay(u, d, t))
    {
      OnRayStep(s, d, u);
    }
  }

  lemma ClearFirst(s: Square, d: Direction, blockers: bv64)
    requires !AtEdge(s, d)
    ensures Clear(s, d, Step(s, d), blockers)
  {
    var n := Step(s, d);
    forall u: Square | OnRay(s, d, u) && OnRay(u, d, n)
      ensures false
    {
      OnRayStep(s, d, u);
      OnRayOrdered(n, d, u);
    }
  }

  /**
   * The first-blocker rule: a square is attacked along d exactly when it
   * lies on the ray and no square strictly before it is a blocker. So the
   * first blocker is attacked and nothing beyond it is.
   */
  lemma {:induction false} RayAttacks(s: Square, d: Direction, blockers: bv64, t: Square)
    ensures t in RaySet(s, d, blockers) <==> OnRay(s, d, t) && Clear(s, d, t, blockers)
    decreases Room(s, d)
  {
    if AtEdge(s, d) {
      OnRayEdge(s, d, t);
    } else {
      var n := Step(s, d);
      OnRayStep(s, d, t);
      if t == n {
        ClearFirst(s, d, blockers);
      } else {
        RayAttacks(n, d, blockers, t);
        if OnRay(n, d, t) {
          ClearStep(s, d, t, blockers);
        }
      }
    }
  }

  /** The direction pointing back the way d came. */
  function Opposite(d: Direction): Direction {
    match d
    case North => South
    case South => North
    case East => West
    case West => East
    case NorthEast => SouthWest
    case NorthWest => SouthEast
    case SouthEast => NorthWest
    case SouthWest => NorthEast
  }

  /** t lies beyond s along d exactly when s lies beyond t the opposite way. */
  lemma OnRayOpposite(s: Square, d: Direction, t: Square)
    ensures OnRay(s, d, t) <==> OnRay(t, Opposite(d), s)
  {
  }

  /** The squares strictly between s and t are the same read from either end. */
  lemma ClearOpposite(s: Square, d: Direction, t: Square, blockers: bv64)
    ensures Clear(s, d, t, blockers) <==> Clear(t, Opposite(d), s, blockers)
  {
    forall u: Square
      ensures OnRay(s, d, u) && OnRay(u, d, t) <==> OnRay(t, Opposite(d), u) && OnRay(u, Opposite(d), s)
    {
      OnRayOpposite(s, d, u);
      OnRayOpposite(u, d, t);
    }
  }

  /** A slider on s reaches t along d exactly when a slider on t reaches s the opposite way. */
  lemma RaySymmetric(s: Square, d: Direction, t: Square, blockers: bv64)
    ensures t in RaySet(s, d, blockers) <==> s in RaySet(t, Opposite(d), blockers)
  {
    RayAttacks(s, d, blockers, t);
    RayAttacks(t, Opposite(d), blockers, s);
    OnRayOpposite(s, d, t);
    ClearOpposite(s, d, t, blockers);
  }
}
