// Attack geometry: the leaper attack masks (pawn, knight, king), the
// relevance masks and the ray-walking attacks of the sliders, the subset
// enumeration used to fill the slider tables, and the file, rank,
// isolated-pawn and passed-pawn masks.  Every mask is a u64 built in a
// local accumulator; its meaning is the set of squares `Squares(mask)`.

module Attacks {
  import opened Bits
  import opened Rays
  import opened Colors

  const FILE_A: bv64 := 0x0101010101010101
  const FILE_H: bv64 := 0x8080808080808080
  const FILE_GH: bv64 := 0xC0C0C0C0C0C0C0C0
  const FILE_AB: bv64 := 0x0303030303030303

  /** The squares whose file index lies in lo..hi. */
  ghost function Columns(lo: bv6, hi: bv6): set<Square> {
    set t | t in ALL && lo <= FileOf(t) <= hi
  }

  lemma FileASquares()
    ensures Squares(FILE_A) == Columns(0, 0)
  {
    forall t: Square ensures t in Squares(FILE_A) <==> t in Columns(0, 0) {
      InSquares(FILE_A, t);
    }
  }

  lemma FileHSquares()
    ensures Squares(FILE_H) == Columns(7, 7)
  {
    forall t: Square ensures t in Squares(FILE_H) <==> t in Columns(7, 7) {
      InSquares(FILE_H, t);
    }
  }

  lemma FileGHSquares()
    ensures Squares(FILE_GH) == Columns(6, 7)
  {
    forall t: Square ensures t in Squares(FILE_GH) <==> t in Columns(6, 7) {
      InSquares(FILE_GH, t);
    }
  }

  lemma FileABSquares()
    ensures Squares(FILE_AB) == Columns(0, 1)
  {
    forall t: Square ensures t in Squares(FILE_AB) <==> t in Columns(0, 1) {
      InSquares(FILE_AB, t);
    }
  }

  // ---------------------------------------------------------------------
  // Leapers
  // ---------------------------------------------------------------------

  /**
   * t lies dr ranks and df files away from s.  The offsets are bv6 values
   * (63 is -1), and a rank or file that runs off the board wraps to a value
   * of at least 8 that no square has, so only on-board targets qualify.
   */
  predicate Offset(s: Square, dr: bv6, df: bv6, t: Square) {
    RankOf(t) == RankOf(s) + dr && FileOf(t) == FileOf(s) + df
  }

  /** The (at most one) target of a jump by (dr, df) from s. */
  ghost function LeapSet(s: Square, dr: bv6, df: bv6): set<Square> {
    set t | t in ALL && Offset(s, dr, df, t)
  }

  /**
   * What one guarded step of a leaper mask contributes: when the shifted
   * board masked with !f is nonzero, the shifted board holds exactly the
   * jump target; when it is zero, the jump leaves the board.
   */
  ghost predicate Guarded(x: bv64, f: bv64, s: Square, dr: bv6, df: bv6) {
    (x & !f != 0 ==> Squares(x) == LeapSet(s, dr, df)) &&
    (x & !f == 0 ==> LeapSet(s, dr, df) == {})
  }

  lemma NonZeroSquares(b: bv64)
    requires b != 0
    ensures Squares(b) != {}
  {
    if Squares(b) == {} {
      SquaresZero();
      SquaresInjective(b, 0);
    }
  }

  /** A shifted single bit u, guarded by the file mask f. */
  lemma GuardedSingle(x: bv64, f: bv64, u: Square, s: Square, dr: bv6, df: bv6)
    requires x == 1 << u
    requires LeapSet(s, dr, df) == {u} - Squares(f)
    ensures Guarded(x, f, s, dr, df)
  {
    SquaresSingle(u);
    SquaresAnd(x, !f);
    SquaresNot(f);
    InAll(u);
    if x & !f != 0 {
      NonZeroSquares(x & !f);
    } else {
      SquaresZero();
    }
  }

  /** The jump from s lands on u. */
  lemma LeapAt(s: Square, dr: bv6, df: bv6, u: Square)
    requires Offset(s, dr, df, u)
    ensures LeapSet(s, dr, df) == {u}
  {
    forall t: Square ensures t in LeapSet(s, dr, df) <==> t == u {
      InAll(t);
      if Offset(s, dr, df, t) {
        SquareEq(t, u);
      }
    }
  }

  /** The jump from s leaves the board. */
  lemma LeapNone(s: Square, dr: bv6, df: bv6)
    requires RankOf(s) + dr >= 8 || FileOf(s) + df >= 8
    ensures LeapSet(s, dr, df) == {}
  {
    forall t: Square ensures t !in LeapSet(s, dr, df) {
      RankFileRange(t);
    }
  }

  lemma GuardedZero(f: bv64, s: Square, dr: bv6, df: bv6)
    requires LeapSet(s, dr, df) == {}
    ensures Guarded(0, f, s, dr, df)
  {
  }

  lemma Shr17HShift(s: Square)
    ensures ((1 as bv64) << s) >> 17 == if 17 <= s then (1 as bv64) << (s - 17) else 0
  {
  }

  lemma Shr17HStep(b: bv64, s: Square, a: bv64, a': bv64)
    requires b == 1 << s
    requires a' == if (b >> 17) & !FILE_H != 0 then a | (b >> 17) else a
    ensures Squares(a') == Squares(a) + LeapSet(s, -2, -1)
  {
    Shr17H(s);
    Accumulate(a, b >> 17, FILE_H, s, -2, -1);
  }

  lemma Shr17H(s: Square)
    ensures Guarded((1 << s) >> 17, FILE_H, s, -2, -1)
  {
    Shr17HShift(s);
    if 17 <= s {
      var u := s - 17;
      FileHSquares();
      InAll(u);
      if FileOf(u) == 7 {
        assert u in Columns(7, 7);
        LeapNone(s, -2, -1);
      } else {
        assert u !in Columns(7, 7);
        LeapAt(s, -2, -1, u);
      }
      GuardedSingle((1 << s) >> 17, FILE_H, u, s, -2, -1);
    } else {
      LeapNone(s, -2, -1);
      GuardedZero(FILE_H, s, -2, -1);
    }
  }

  lemma Shr15AShift(s: Square)
    ensures ((1 as bv64) << s) >> 15 == if 15 <= s then (1 as bv64) << (s - 15) else 0
  {
  }

  lemma Shr15AStep(b: bv64, s: Square, a: bv64, a': bv64)
    requires b == 1 << s
    requires a' == if (b >> 15) & !FILE_A != 0 then a | (b >> 15) else a
    ensures Squares(a') == Squares(a) + LeapSet(s, -2, 1)
  {
    Shr15A(s);
    Accumulate(a, b >> 15, FILE_A, s, -2, 1);
  }

  lemma Shr15A(s: Square)
    ensures Guarded((1 << s) >> 15, FILE_A, s, -2, 1)
  {
    Shr15AShift(s);
    if 15 <= s {
      var u := s - 15;
      FileASquares();
      InAll(u);
      if FileOf(u) == 0 {
        assert u in Columns(0, 0);
        LeapNone(s, -2, 1);
      } else {
        assert u !in Columns(0, 0);
        LeapAt(s, -2, 1, u);
      }
      GuardedSingle((1 << s) >> 15, FILE_A, u, s, -2, 1);
    } else {
      LeapNone(s, -2, 1);
      GuardedZero(FILE_A, s, -2, 1);
    }
  }

  lemma Shr10GHShift(s: Square)
    ensures ((1 as bv64) << s) >> 10 == if 10 <= s then (1 as bv64) << (s - 10) else 0
  {
  }

  lemma Shr10GHStep(b: bv64, s: Square, a: bv64, a': bv64)
    requires b == 1 << s
    requires a' == if (b >> 10) & !FILE_GH != 0 then a | (b >> 10) else a
    ensures Squares(a') == Squares(a) + LeapSet(s, -1, -2)
  {
    Shr10GH(s);
    Accumulate(a, b >> 10, FILE_GH, s, -1, -2);
  }

  lemma Shr10GH(s: Square)
    ensures Guarded((1 << s) >> 10, FILE_GH, s, -1, -2)
  {
    Shr10GHShift(s);
    if 10 <= s {
      var u := s - 10;
      FileGHSquares();
      InAll(u);
      if 6 <= FileOf(u) <= 7 {
        assert u in Columns(6, 7);
        LeapNone(s, -1, -2);
      } else {
        assert u !in Columns(6, 7);
        LeapAt(s, -1, -2, u);
      }
      GuardedSingle((1 << s) >> 10, FILE_GH, u, s, -1, -2);
    } else {
      LeapNone(s, -1, -2);
      GuardedZero(FILE_GH, s, -1, -2);
    }
  }

  lemma Shr6ABShift(s: Square)
    ensures ((1 as bv64) << s) >> 6 == if 6 <= s then (1 as bv64) << (s - 6) else 0
  {
  }

  lemma Shr6ABStep(b: bv64, s: Square, a: bv64, a': bv64)
    requires b == 1 << s
    requires a' == if (b >> 6) & !FILE_AB != 0 then a | (b >> 6) else a
    ensures Squares(a') == Squares(a) + LeapSet(s, -1, 2)
  {
    Shr6AB(s);
    Accumulate(a, b >> 6, FILE_AB, s, -1, 2);
  }

  lemma Shr6AB(s: Square)
    ensures Guarded((1 << s) >> 6, FILE_AB, s, -1, 2)
  {
    Shr6ABShift(s);
    if 6 <= s {
      var u := s - 6;
      FileABSquares();
      InAll(u);
      if 0 <= FileOf(u) <= 1 {
        assert u in Columns(0, 1);
        LeapNone(s, -1, 2);
      } else {
        assert u !in Columns(0, 1);
        LeapAt(s, -1, 2, u);
      }
      GuardedSingle((1 << s) >> 6, FILE_AB, u, s, -1, 2);
    } else {
      LeapNone(s, -1, 2);
      GuardedZero(FILE_AB, s, -1, 2);
    }
  }

  lemma Shl17AShift(s: Square)
    ensures ((1 as bv64) << s) << 17 == if s <= 46 then (1 as bv64) << (s + 17) else 0
  {
  }

  lemma Shl17AStep(b: bv64, s: Square, a: bv64, a': bv64)
    requires b == 1 << s
    requires a' == if (b << 17) & !FILE_A != 0 then a | (b << 17) else a
    ensures Squares(a') == Squares(a) + LeapSet(s, 2, 1)
  {
    Shl17A(s);
    Accumulate(a, b << 17, FILE_A, s, 2, 1);
  }

  lemma Shl17A(s: Square)
    ensures Guarded((1 << s) << 17, FILE_A, s, 2, 1)
  {
    Shl17AShift(s);
    if s <= 46 {
      var u := s + 17;
      FileASquares();
      InAll(u);
      if FileOf(u) == 0 {
        assert u in Columns(0, 0);
        LeapNone(s, 2, 1);
      } else {
        assert u !in Columns(0, 0);
        LeapAt(s, 2, 1, u);
      }
      GuardedSingle((1 << s) << 17, FILE_A, u, s, 2, 1);
    } else {
      LeapNone(s, 2, 1);
      GuardedZero(FILE_A, s, 2, 1);
    }
  }

  lemma Shl15HShift(s: Square)
    ensures ((1 as bv64) << s) << 15 == if s <= 48 then (1 as bv64) << (s + 15) else 0
  {
  }

  lemma Shl15HStep(b: bv64, s: Square, a: bv64, a': bv64)
    requires b == 1 << s
    requires a' == if (b << 15) & !FILE_H != 0 then a | (b << 15) else a
    ensures Squares(a') == Squares(a) + LeapSet(s, 2, -1)
  {
    Shl15H(s);
    Accumulate(a, b << 15, FILE_H, s, 2, -1);
  }

  lemma Shl15H(s: Square)
    ensures Guarded((1 << s) << 15, FILE_H, s, 2, -1)
  {
    Shl15HShift(s);
    if s <= 48 {
      var u := s + 15;
      FileHSquares();
      InAll(u);
      if FileOf(u) == 7 {
        assert u in Columns(7, 7);
        LeapNone(s, 2, -1);
      } else {
        assert u !in Columns(7, 7);
        LeapAt(s, 2, -1, u);
      }
      GuardedSingle((1 << s) << 15, FILE_H, u, s, 2, -1);
    } else {
      LeapNone(s, 2, -1);
      GuardedZero(FILE_H, s, 2, -1);
    }
  }

  lemma Shl10ABShift(s: Square)
    ensures ((1 as bv64) << s) << 10 == if s <= 53 then (1 as bv64) << (s + 10) else 0
  {
  }

  lemma Shl10ABStep(b: bv64, s: Square, a: bv64, a': bv64)
    requires b == 1 << s
    requires a' == if (b << 10) & !FILE_AB != 0 then a | (b << 10) else a
    ensures Squares(a') == Squares(a) + LeapSet(s, 1, 2)
  {
    Shl10AB(s);
    Accumulate(a, b << 10, FILE_AB, s, 1, 2);
  }

  lemma Shl10AB(s: Square)
    ensures Guarded((1 << s) << 10, FILE_AB, s, 1, 2)
  {
    Shl10ABShift(s);
    if s <= 53 {
      var u := s + 10;
      FileABSquares();
      InAll(u);
      if 0 <= FileOf(u) <= 1 {
        assert u in Columns(0, 1);
        LeapNone(s, 1, 2);
      } else {
        assert u !in Columns(0, 1);
        LeapAt(s, 1, 2, u);
      }
      GuardedSingle((1 << s) << 10, FILE_AB, u, s, 1, 2);
    } else {
      LeapNone(s, 1, 2);
      GuardedZero(FILE_AB, s, 1, 2);
    }
  }

  lemma Shl6GHShift(s: Square)
    ensures ((1 as bv64) << s) << 6 == if s <= 57 then (1 as bv64) << (s + 6) else 0
  {
  }

  lemma Shl6GHStep(b: bv64, s: Square, a: bv64, a': bv64)
    requires b == 1 << s
    requires a' == if (b << 6) & !FILE_GH != 0 then a | (b << 6) else a
    ensures Squares(a') == Squares(a) + LeapSet(s, 1, -2)
  {
    Shl6GH(s);
    Accumulate(a, b << 6, FILE_GH, s, 1, -2);
  }

  lemma Shl6GH(s: Square)
    ensures Guarded((1 << s) << 6, FILE_GH, s, 1, -2)
  {
    Shl6GHShift(s);
    if s <= 57 {
      var u := s + 6;
      FileGHSquares();
      InAll(u);
      if 6 <= FileOf(u) <= 7 {
        assert u in Columns(6, 7);
        LeapNone(s, 1, -2);
      } else {
        assert u !in Columns(6, 7);
        LeapAt(s, 1, -2, u);
      }
      GuardedSingle((1 << s) << 6, FILE_GH, u, s, 1, -2);
    } else {
      LeapNone(s, 1, -2);
      GuardedZero(FILE_GH, s, 1, -2);
    }
  }

  lemma Shr9HShift(s: Square)
    ensures ((1 as bv64) << s) >> 9 == if 9 <= s then (1 as bv64) << (s - 9) else 0
  {
  }

  lemma Shr9HStep(b: bv64, s: Square, a: bv64, a': bv64)
    requires b == 1 << s
    requires a' == if (b >> 9) & !FILE_H != 0 then a | (b >> 9) else a
    ensures Squares(a') == Squares(a) + LeapSet(s, -1, -1)
  {
    Shr9H(s);
    Accumulate(a, b >> 9, FILE_H, s, -1, -1);
  }

  lemma Shr9H(s: Square)
    ensures Guarded((1 << s) >> 9, FILE_H, s, -1, -1)
  {
    Shr9HShift(s);
    if 9 <= s {
      var u := s - 9;
      FileHSquares();
      InAll(u);
      if FileOf(u) == 7 {
        assert u in Columns(7, 7);
        LeapNone(s, -1, -1);
      } else {
        assert u !in Columns(7, 7);
        LeapAt(s, -1, -1, u);
      }
      GuardedSingle((1 << s) >> 9, FILE_H, u, s, -1, -1);
    } else {
      LeapNone(s, -1, -1);
      GuardedZero(FILE_H, s, -1, -1);
    }
  }

  lemma Shr8Shift(s: Square)
    ensures ((1 as bv64) << s) >> 8 == if 8 <= s then (1 as bv64) << (s - 8) else 0
  {
  }

  lemma Shr8Step(b: bv64, s: Square, a: bv64, a': bv64)
    requires b == 1 << s
    requires a' == if b >> 8 != 0 then a | (b >> 8) else a
    ensures Squares(a') == Squares(a) + LeapSet(s, -1, 0)
  {
    Shr8(s);
    Accumulate(a, b >> 8, 0, s, -1, 0);
  }

  lemma Shr8(s: Square)
    ensures Guarded((1 << s) >> 8, 0, s, -1, 0)
  {
    Shr8Shift(s);
    if 8 <= s {
      var u := s - 8;
      SquaresZero();
      LeapAt(s, -1, 0, u);
      GuardedSingle((1 << s) >> 8, 0, u, s, -1, 0);
    } else {
      LeapNone(s, -1, 0);
      GuardedZero(0, s, -1, 0);
    }
  }

  lemma Shr7AShift(s: Square)
    ensures ((1 as bv64) << s) >> 7 == if 7 <= s then (1 as bv64) << (s - 7) else 0
  {
  }

  lemma Shr7AStep(b: bv64, s: Square, a: bv64, a': bv64)
    requires b == 1 << s
    requires a' == if (b >> 7) & !FILE_A != 0 then a | (b >> 7) else a
    ensures Squares(a') == Squares(a) + LeapSet(s, -1, 1)
  {
    Shr7A(s);
    Accumulate(a, b >> 7, FILE_A, s, -1, 1);
  }

  lemma Shr7A(s: Square)
    ensures Guarded((1 << s) >> 7, FILE_A, s, -1, 1)
  {
    Shr7AShift(s);
    if 7 <= s {
      var u := s - 7;
      FileASquares();
      InAll(u);
      if FileOf(u) == 0 {
        assert u in Columns(0, 0);
        LeapNone(s, -1, 1);
      } else {
        assert u !in Columns(0, 0);
        LeapAt(s, -1, 1, u);
      }
      GuardedSingle((1 << s) >> 7, FILE_A, u, s, -1, 1);
    } else {
      LeapNone(s, -1, 1);
      GuardedZero(FILE_A, s, -1, 1);
    }
  }

  lemma Shr1HShift(s: Square)
    ensures ((1 as bv64) << s) >> 1 == if 1 <= s then (1 as bv64) << (s - 1) else 0
  {
  }

  lemma Shr1HStep(b: bv64, s: Square, a: bv64, a': bv64)
    requires b == 1 << s
    requires a' == if (b >> 1) & !FILE_H != 0 then a | (b >> 1) else a
    ensures Squares(a') == Squares(a) + LeapSet(s, 0, -1)
  {
    Shr1H(s);
    Accumulate(a, b >> 1, FILE_H, s, 0, -1);
  }

  lemma Shr1H(s: Square)
    ensures Guarded((1 << s) >> 1, FILE_H, s, 0, -1)
  {
    Shr1HShift(s);
    if 1 <= s {
      var u := s - 1;
      FileHSquares();
      InAll(u);
      if FileOf(u) == 7 {
        assert u in Columns(7, 7);
        LeapNone(s, 0, -1);
      } else {
        assert u !in Columns(7, 7);
        LeapAt(s, 0, -1, u);
      }
      GuardedSingle((1 << s) >> 1, FILE_H, u, s, 0, -1);
    } else {
      LeapNone(s, 0, -1);
      GuardedZero(FILE_H, s, 0, -1);
    }
  }

  lemma Shl9AShift(s: Square)
    ensures ((1 as bv64) << s) << 9 == if s <= 54 then (1 as bv64) << (s + 9) else 0
  {
  }

  lemma Shl9AStep(b: bv64, s: Square, a: bv64, a': bv64)
    requires b == 1 << s
    requires a' == if (b << 9) & !FILE_A != 0 then a | (b << 9) else a
    ensures Squares(a') == Squares(a) + LeapSet(s, 1, 1)
  {
    Shl9A(s);
    Accumulate(a, b << 9, FILE_A, s, 1, 1);
  }

  lemma Shl9A(s: Square)
    ensures Guarded((1 << s) << 9, FILE_A, s, 1, 1)
  {
    Shl9AShift(s);
    if s <= 54 {
      var u := s + 9;
      FileASquares();
      InAll(u);
      if FileOf(u) == 0 {
        assert u in Columns(0, 0);
        LeapNone(s, 1, 1);
      } else {
        assert u !in Columns(0, 0);
        LeapAt(s, 1, 1, u);
      }
      GuardedSingle((1 << s) << 9, FILE_A, u, s, 1, 1);
    } else {
      LeapNone(s, 1, 1);
      GuardedZero(FILE_A, s, 1, 1);
    }
  }

  lemma Shl8Shift(s: Square)
    ensures ((1 as bv64) << s) << 8 == if s <= 55 then (1 as bv64) << (s + 8) else 0
  {
  }

  lemma Shl8Step(b: bv64, s: Square, a: bv64, a': bv64)
    requires b == 1 << s
    requires a' == if b << 8 != 0 then a | (b << 8) else a
    ensures Squares(a') == Squares(a) + LeapSet(s, 1, 0)
  {
    Shl8(s);
    Accumulate(a, b << 8, 0, s, 1, 0);
  }

  lemma Shl8(s: Square)
    ensures Guarded((1 << s) << 8, 0, s, 1, 0)
  {
    Shl8Shift(s);
    if s <= 55 {
      var u := s + 8;
      SquaresZero();
      LeapAt(s, 1, 0, u);
      GuardedSingle((1 << s) << 8, 0, u, s, 1, 0);
    } else {
      LeapNone(s, 1, 0);
      GuardedZero(0, s, 1, 0);
    }
  }

  lemma Shl7HShift(s: Square)
    ensures ((1 as bv64) << s) << 7 == if s <= 56 then (1 as bv64) << (s + 7) else 0
  {
  }

  lemma Shl7HStep(b: bv64, s: Square, a: bv64, a': bv64)
    requires b == 1 << s
    requires a' == if (b << 7) & !FILE_H != 0 then a | (b << 7) else a
    ensures Squares(a') == Squares(a) + LeapSet(s, 1, -1)
  {
    Shl7H(s);
    Accumulate(a, b << 7, FILE_H, s, 1, -1);
  }

  lemma Shl7H(s: Square)
    ensures Guarded((1 << s) << 7, FILE_H, s, 1, -1)
  {
    Shl7HShift(s);
    if s <= 56 {
      var u := s + 7;
      FileHSquares();
      InAll(u);
      if FileOf(u) == 7 {
        assert u in Columns(7, 7);
        LeapNone(s, 1, -1);
      } else {
        assert u !in Columns(7, 7);
        LeapAt(s, 1, -1, u);
      }
      GuardedSingle((1 << s) << 7, FILE_H, u, s, 1, -1);
    } else {
      LeapNone(s, 1, -1);
      GuardedZero(FILE_H, s, 1, -1);
    }
  }

  lemma Shl1AShift(s: Square)
    ensures ((1 as bv64) << s) << 1 == if s <= 62 then (1 as bv64) << (s + 1) else 0
  {
  }

  lemma Shl1AStep(b: bv64, s: Square, a: bv64, a': bv64)
    requires b == 1 << s
    requires a' == if (b << 1) & !FILE_A != 0 then a | (b << 1) else a
    ensures Squares(a') == Squares(a) + LeapSet(s, 0, 1)
  {
    Shl1A(s);
    Accumulate(a, b << 1, FILE_A, s, 0, 1);
  }

  lemma Shl1A(s: Square)
    ensures Guarded((1 << s) << 1, FILE_A, s, 0, 1)
  {
    Shl1AShift(s);
    if s <= 62 {
      var u := s + 1;
      FileASquares();
      InAll(u);
      if FileOf(u) == 0 {
        assert u in Columns(0, 0);
        LeapNone(s, 0, 1);
      } else {
        assert u !in Columns(0, 0);
        LeapAt(s, 0, 1, u);
      }
      GuardedSingle((1 << s) << 1, FILE_A, u, s, 0, 1);
    } else {
      LeapNone(s, 0, 1);
      GuardedZero(FILE_A, s, 0, 1);
    }
  }

  /** Adding one guarded step: the accumulator gains the jump target, if any. */
  lemma Accumulate(a: bv64, x: bv64, f: bv64, s: Square, dr: bv6, df: bv6)
    requires Guarded(x, f, s, dr, df)
    ensures Squares(if x & !f != 0 then a | x else a) == Squares(a) + LeapSet(s, dr, df)
  {
    if x & !f != 0 {
      SquaresOr(a, x);
    }
  }

  /** A jump has at most one target. */
  lemma LeapSize(s: Square, dr: bv6, df: bv6)
    ensures |LeapSet(s, dr, df)| <= 1
  {
    var r, f := RankOf(s) + dr, FileOf(s) + df;
    if r < 8 && f < 8 {
      SquareOfRankFile(r, f);
      LeapAt(s, dr, df, r * 8 + f);
    } else {
      LeapNone(s, dr, df);
    }
  }

  /** Distance between two rank or file indices. */
  function Dist(a: bv6, b: bv6): (d: bv6)
    ensures d == a - b || d == b - a
    ensures a < 8 && b < 8 ==> d < 8
  {
    if a <= b then b - a else a - b
  }

  /** The squares a pawn of the given colour on s attacks: one rank forward, one file aside. */
  ghost function PawnTargets(s: Square, side: Color): set<Square> {
    if side == White then set t | t in ALL && RankOf(t) + 1 == RankOf(s) && Dist(FileOf(s), FileOf(t)) == 1
    else set t | t in ALL && RankOf(t) == RankOf(s) + 1 && Dist(FileOf(s), FileOf(t)) == 1
  }

  /** The squares a knight on s attacks: two squares one way and one the other. */
  ghost function KnightTargets(s: Square): set<Square> {
    set t | t in ALL &&
      ((Dist(RankOf(s), RankOf(t)) == 1 && Dist(FileOf(s), FileOf(t)) == 2) ||
       (Dist(RankOf(s), RankOf(t)) == 2 && Dist(FileOf(s), FileOf(t)) == 1))
  }

  /** The squares a king on s attacks: every other square at distance one. */
  ghost function KingTargets(s: Square): set<Square> {
    set t | t in ALL && t != s && Dist(RankOf(s), RankOf(t)) <= 1 && Dist(FileOf(s), FileOf(t)) <= 1
  }

  lemma PawnLeaps(s: Square, side: Color)
    ensures side == White ==> PawnTargets(s, side) == LeapSet(s, -1, 1) + LeapSet(s, -1, -1)
    ensures side == Black ==> PawnTargets(s, side) == LeapSet(s, 1, -1) + LeapSet(s, 1, 1)
  {
    forall t: Square
      ensures t in PawnTargets(s, side) <==>
        if side == White then Offset(s, -1, 1, t) || Offset(s, -1, -1, t)
        else Offset(s, 1, -1, t) || Offset(s, 1, 1, t)
    {
      InAll(t);
      RankFileRange(s);
      RankFileRange(t);
    }
  }

  lemma KnightAt(s: Square, t: Square)
    ensures
      ((Dist(RankOf(s), RankOf(t)) == 1 && Dist(FileOf(s), FileOf(t)) == 2) ||
       (Dist(RankOf(s), RankOf(t)) == 2 && Dist(FileOf(s), FileOf(t)) == 1)) <==>
      Offset(s, -2, -1, t) || Offset(s, -2, 1, t) || Offset(s, -1, -2, t) || Offset(s, -1, 2, t) ||
      Offset(s, 2, 1, t) || Offset(s, 2, -1, t) || Offset(s, 1, 2, t) || Offset(s, 1, -2, t)
  {
    RankFileRange(s);
    RankFileRange(t);
  }

  lemma KnightLeaps(s: Square)
    ensures KnightTargets(s) ==
      LeapSet(s, -2, -1) + LeapSet(s, -2, 1) + LeapSet(s, -1, -2) + LeapSet(s, -1, 2) +
      LeapSet(s, 2, 1) + LeapSet(s, 2, -1) + LeapSet(s, 1, 2) + LeapSet(s, 1, -2)
  {
    forall t: Square
      ensures t in KnightTargets(s) <==>
        Offset(s, -2, -1, t) || Offset(s, -2, 1, t) || Offset(s, -1, -2, t) || Offset(s, -1, 2, t) ||
        Offset(s, 2, 1, t) || Offset(s, 2, -1, t) || Offset(s, 1, 2, t) || Offset(s, 1, -2, t)
    {
      InAll(t);
      KnightAt(s, t);
    }
  }

  lemma KingAt(s: Square, t: Square)
    ensures
      (t != s && Dist(RankOf(s), RankOf(t)) <= 1 && Dist(FileOf(s), FileOf(t)) <= 1) <==>
      Offset(s, -1, -1, t) || Offset(s, -1, 0, t) || Offset(s, -1, 1, t) || Offset(s, 0, -1, t) ||
      Offset(s, 1, 1, t) || Offset(s, 1, 0, t) || Offset(s, 1, -1, t) || Offset(s, 0, 1, t)
  {
    RankFileRange(s);
    RankFileRange(t);
    if RankOf(s) == RankOf(t) && FileOf(s) == FileOf(t) {
      SquareEq(s, t);
    }
  }

  lemma KingLeaps(s: Square)
    ensures KingTargets(s) ==
      LeapSet(s, -1, -1) + LeapSet(s, -1, 0) + LeapSet(s, -1, 1) + LeapSet(s, 0, -1) +
      LeapSet(s, 1, 1) + LeapSet(s, 1, 0) + LeapSet(s, 1, -1) + LeapSet(s, 0, 1)
  {
    forall t: Square
      ensures t in KingTargets(s) <==>
        Offset(s, -1, -1, t) || Offset(s, -1, 0, t) || Offset(s, -1, 1, t) || Offset(s, 0, -1, t) ||
        Offset(s, 1, 1, t) || Offset(s, 1, 0, t) || Offset(s, 1, -1, t) || Offset(s, 0, 1, t)
    {
      InAll(t);
      KingAt(s, t);
    }
  }

  lemma CountFromSquares(b: bv64, targets: set<Square>, n: nat)
    requires Squares(b) == targets && |targets| <= n
    ensures PopCount(b) <= n
  {
    PopCountIsSize(b);
  }

  lemma PawnCount(s: Square, side: Color)
    ensures |PawnTargets(s, side)| <= 2
  {
    PawnLeaps(s, side);
    LeapSize(s, -1, 1);
    LeapSize(s, -1, -1);
    LeapSize(s, 1, -1);
    LeapSize(s, 1, 1);
  }

  lemma KnightCount(s: Square)
    ensures |KnightTargets(s)| <= 8
  {
    KnightLeaps(s);
    LeapSize(s, -2, -1);
    LeapSize(s, -2, 1);
    LeapSize(s, -1, -2);
    LeapSize(s, -1, 2);
    LeapSize(s, 2, 1);
    LeapSize(s, 2, -1);
    LeapSize(s, 1, 2);
    LeapSize(s, 1, -2);
  }

  lemma KingCount(s: Square)
    ensures |KingTargets(s)| <= 8
  {
    KingLeaps(s);
    LeapSize(s, -1, -1);
    LeapSize(s, -1, 0);
    LeapSize(s, -1, 1);
    LeapSize(s, 0, -1);
    LeapSize(s, 1, 1);
    LeapSize(s, 1, 0);
    LeapSize(s, 1, -1);
    LeapSize(s, 0, 1);
  }

  /** Two accumulation steps from an empty board yield the union of the two contributions. */
  lemma Union2(a0: bv64, a1: bv64, a2: bv64, l1: set<Square>, l2: set<Square>, targets: set<Square>)
    requires a0 == 0 && targets == l1 + l2
    requires Squares(a1) == Squares(a0) + l1 && Squares(a2) == Squares(a1) + l2
    ensures Squares(a2) == targets
  {
    SquaresZero();
  }

  /** Eight accumulation steps from an empty board yield the union of the eight contributions. */
  lemma Extend(a: bv64, a': bv64, acc: set<Square>, l: set<Square>)
    requires Squares(a) == acc && Squares(a') == Squares(a) + l
    ensures Squares(a') == acc + l
  {
  }

  lemma Union8(a0: bv64, a1: bv64, a2: bv64, a3: bv64, a4: bv64, a5: bv64, a6: bv64, a7: bv64, a8: bv64,
               l1: set<Square>, l2: set<Square>, l3: set<Square>, l4: set<Square>,
               l5: set<Square>, l6: set<Square>, l7: set<Square>, l8: set<Square>, targets: set<Square>)
    requires a0 == 0 && targets == l1 + l2 + l3 + l4 + l5 + l6 + l7 + l8
    requires Squares(a1) == Squares(a0) + l1 && Squares(a2) == Squares(a1) + l2
    requires Squares(a3) == Squares(a2) + l3 && Squares(a4) == Squares(a3) + l4
    requires Squares(a5) == Squares(a4) + l5 && Squares(a6) == Squares(a5) + l6
    requires Squares(a7) == Squares(a6) + l7 && Squares(a8) == Squares(a7) + l8
    ensures Squares(a8) == targets
  {
    SquaresZero();
    assert Squares(a1) == l1;
    Extend(a1, a2, l1, l2);
    Extend(a2, a3, l1 + l2, l3);
    Extend(a3, a4, l1 + l2 + l3, l4);
    Extend(a4, a5, l1 + l2 + l3 + l4, l5);
    Extend(a5, a6, l1 + l2 + l3 + l4 + l5, l6);
    Extend(a6, a7, l1 + l2 + l3 + l4 + l5 + l6, l7);
    Extend(a7, a8, l1 + l2 + l3 + l4 + l5 + l6 + l7, l8);
  }

  /** `mask_pawn_attacks`: the one or two squares a pawn attacks, never wrapping across the A/H files. */
  method MaskPawnAttacks(square: Square, side: Color) returns (attacks: bv64)
    ensures Squares(attacks) == PawnTargets(square, side)
  {
    var bitboard := SetBit(0, square);
    assert bitboard == 1 << square;
    attacks := 0;
    PawnLeaps(square, side);
    if side == White {
      ghost var a0 := attacks;
      if (bitboard >> 7) & !FILE_A != 0 {
        attacks := attacks | (bitboard >> 7);
      }
      Shr7AStep(bitboard, square, a0, attacks);
      ghost var a1 := attacks;
      if (bitboard >> 9) & !FILE_H != 0 {
        attacks := attacks | (bitboard >> 9);
      }
      Shr9HStep(bitboard, square, a1, attacks);
      Union2(a0, a1, attacks, LeapSet(square, -1, 1), LeapSet(square, -1, -1), PawnTargets(square, side));
    }
    if side == Black {
      ghost var a0 := attacks;
      if (bitboard << 7) & !FILE_H != 0 {
        attacks := attacks | (bitboard << 7);
      }
      Shl7HStep(bitboard, square, a0, attacks);
      ghost var a1 := attacks;
      if (bitboard << 9) & !FILE_A != 0 {
        attacks := attacks | (bitboard << 9);
      }
      Shl9AStep(bitboard, square, a1, attacks);
      Union2(a0, a1, attacks, LeapSet(square, 1, -1), LeapSet(square, 1, 1), PawnTargets(square, side));
    }
  }

  /** `mask_knight_attacks`: the up to eight knight jumps from a square, none wrapping across a board edge. */
  method MaskKnightAttacks(square: Square) returns (attacks: bv64)
    ensures Squares(attacks) == KnightTargets(square)
  {
    attacks := 0;
    var bitboard := SetBit(0, square);
    assert bitboard == 1 << square;
    ghost var a0 := attacks;
    if (bitboard >> 17) & !FILE_H != 0 {
      attacks := attacks | (bitboard >> 17);
    }
    Shr17HStep(bitboard, square, a0, attacks);
    ghost var a1 := attacks;
    if (bitboard >> 15) & !FILE_A != 0 {
      attacks := attacks | (bitboard >> 15);
    }
    Shr15AStep(bitboard, square, a1, attacks);
    ghost var a2 := attacks;
    if (bitboard >> 10) & !FILE_GH != 0 {
      attacks := attacks | (bitboard >> 10);
    }
    Shr10GHStep(bitboard, square, a2, attacks);
    ghost var a3 := attacks;
    if (bitboard >> 6) & !FILE_AB != 0 {
      attacks := attacks | (bitboard >> 6);
    }
    Shr6ABStep(bitboard, square, a3, attacks);
    ghost var a4 := attacks;
    if (bitboard << 17) & !FILE_A != 0 {
      attacks := attacks | (bitboard << 17);
    }
    Shl17AStep(bitboard, square, a4, attacks);
    ghost var a5 := attacks;
    if (bitboard << 15) & !FILE_H != 0 {
      attacks := attacks | (bitboard << 15);
    }
    Shl15HStep(bitboard, square, a5, attacks);
    ghost var a6 := attacks;
    if (bitboard << 10) & !FILE_AB != 0 {
      attacks := attacks | (bitboard << 10);
    }
    Shl10ABStep(bitboard, square, a6, attacks);
    ghost var a7 := attacks;
    if (bitboard << 6) & !FILE_GH != 0 {
      attacks := attacks | (bitboard << 6);
    }
    Shl6GHStep(bitboard, square, a7, attacks);
    KnightLeaps(square);
    Union8(a0, a1, a2, a3, a4, a5, a6, a7, attacks,
      LeapSet(square, -2, -1), LeapSet(square, -2, 1),
      LeapSet(square, -1, -2), LeapSet(square, -1, 2),
      LeapSet(square, 2, 1), LeapSet(square, 2, -1),
      LeapSet(square, 1, 2), LeapSet(square, 1, -2),
      KnightTargets(square));
  }

  /** `mask_king_attacks`: the up to eight neighbours of a square, none wrapping across a board edge. */
  method MaskKingAttacks(square: Square) returns (attacks: bv64)
    ensures Squares(attacks) == KingTargets(square)
  {
    attacks := 0;
    var bitboard := SetBit(0, square);
    assert bitboard == 1 << square;
    ghost var a0 := attacks;
    if (bitboard >> 9) & !FILE_H != 0 {
      attacks := attacks | (bitboard >> 9);
    }
    Shr9HStep(bitboard, square, a0, attacks);
    ghost var a1 := attacks;
    if bitboard >> 8 != 0 {
      attacks := attacks | (bitboard >> 8);
    }
    Shr8Step(bitboard, square, a1, attacks);
    ghost var a2 := attacks;
    if (bitboard >> 7) & !FILE_A != 0 {
      attacks := attacks | (bitboard >> 7);
    }
    Shr7AStep(bitboard, square, a2, attacks);
    ghost var a3 := attacks;
    if (bitboard >> 1) & !FILE_H != 0 {
      attacks := attacks | (bitboard >> 1);
    }
    Shr1HStep(bitboard, square, a3, attacks);
    ghost var a4 := attacks;
    if (bitboard << 9) & !FILE_A != 0 {
      attacks := attacks | (bitboard << 9);
    }
    Shl9AStep(bitboard, square, a4, attacks);
    ghost var a5 := attacks;
    if bitboard << 8 != 0 {
      attacks := attacks | (bitboard << 8);
    }
    Shl8Step(bitboard, square, a5, attacks);
    ghost var a6 := attacks;
    if (bitboard << 7) & !FILE_H != 0 {
      attacks := attacks | (bitboard << 7);
    }
    Shl7HStep(bitboard, square, a6, attacks);
    ghost var a7 := attacks;
    if (bitboard << 1) & !FILE_A != 0 {
      attacks := attacks | (bitboard << 1);
    }
    Shl1AStep(bitboard, square, a7, attacks);
    KingLeaps(square);
    Union8(a0, a1, a2, a3, a4, a5, a6, a7, attacks,
      LeapSet(square, -1, -1), LeapSet(square, -1, 0),
      LeapSet(square, -1, 1), LeapSet(square, 0, -1),
      LeapSet(square, 1, 1), LeapSet(square, 1, 0),
      LeapSet(square, 1, -1), LeapSet(square, 0, 1),
      KingTargets(square));
  }

  // ---------------------------------------------------------------------
  // Sliders: attacks computed by walking the rays
  // ---------------------------------------------------------------------

  lemma EmptyUnion(x: set<Square>)
    ensures {} + x == x
  {
  }

  /** The walk along d has ended, after a blocker or at the board edge. */
  lemma WalkDone(acc: set<Square>, cur: Square, d: Direction, blockers: bv64, whole: set<Square>)
    requires acc == whole || (AtEdge(cur, d) && acc + RaySet(cur, d, blockers) == whole)
    ensures acc == whole
  {
  }

  /** The rook's attacks: the four orthogonal rays, each up to and including its first blocker. */
  ghost function RookAttacks(s: Square, blockers: bv64): set<Square> {
    RaySet(s, South, blockers) + RaySet(s, North, blockers) + RaySet(s, East, blockers) + RaySet(s, West, blockers)
  }

  /** The ray walk has reached the next square n: the accumulated squares plus what remains is the whole ray. */
  lemma WalkOn(acc: set<Square>, cur: Square, d: Direction, blockers: bv64, n: Square, whole: set<Square>)
    requires !AtEdge(cur, d) && n == Step(cur, d)
    requires acc + RaySet(cur, d, blockers) == whole
    ensures Bit(blockers, n) ==> acc + {n} == whole
    ensures !Bit(blockers, n) ==> (acc + {n}) + RaySet(n, d, blockers) == whole
  {
  }

  /** The bishop's attacks: the four diagonal rays, each up to and including its first blocker. */
  ghost function BishopAttacks(s: Square, blockers: bv64): set<Square> {
    RaySet(s, SouthEast, blockers) + RaySet(s, NorthWest, blockers) + RaySet(s, SouthWest, blockers) + RaySet(s, NorthEast, blockers)
  }

  /** One iteration of a ray walk: the square n after cur is added, and the walk stops at a blocker. */
  lemma Advance(a: bv64, cur: Square, d: Direction, blockers: bv64, n: Square, whole: set<Square>)
    requires !AtEdge(cur, d) && n == Step(cur, d)
    requires Squares(a) + RaySet(cur, d, blockers) == whole
    ensures (1 << n) & blockers != 0 ==> Squares(SetBit(a, n)) == whole
    ensures (1 << n) & blockers == 0 ==> Squares(SetBit(a, n)) + RaySet(n, d, blockers) == whole
  {
    SquaresSetBit(a, n);
    BitMask(blockers, n);
    WalkOn(Squares(a), cur, d, blockers, n, whole);
  }

  lemma NextSouth(cur: Square, rank: bv6, file: bv6)
    requires rank == RankOf(cur) + 1 && file == FileOf(cur) && rank <= 7
    ensures !AtEdge(cur, South) && Step(cur, South) == rank * 8 + file
    ensures RankOf(rank * 8 + file) == rank && FileOf(rank * 8 + file) == file
  {
    StepSouth(cur);
    SquareOfRankFile(rank, file);
    SquareEq(rank * 8 + file, cur + 8);
  }

  lemma NextNorth(cur: Square, rank: bv6, file: bv6)
    requires rank == RankOf(cur) - 1 && file == FileOf(cur) && RankOf(cur) > 0
    ensures !AtEdge(cur, North) && Step(cur, North) == rank * 8 + file
    ensures RankOf(rank * 8 + file) == rank && FileOf(rank * 8 + file) == file
  {
    StepNorth(cur);
    SquareOfRankFile(rank, file);
    SquareEq(rank * 8 + file, cur - 8);
  }

  lemma NextEast(cur: Square, rank: bv6, file: bv6)
    requires rank == RankOf(cur) && file == FileOf(cur) + 1 && file <= 7
    ensures !AtEdge(cur, East) && Step(cur, East) == rank * 8 + file
    ensures RankOf(rank * 8 + file) == rank && FileOf(rank * 8 + file) == file
  {
    StepEast(cur);
    SquareOfRankFile(rank, file);
    SquareEq(rank * 8 + file, cur + 1);
  }

  lemma NextWest(cur: Square, rank: bv6, file: bv6)
    requires rank == RankOf(cur) && file == FileOf(cur) - 1 && FileOf(cur) > 0
    ensures !AtEdge(cur, West) && Step(cur, West) == rank * 8 + file
    ensures RankOf(rank * 8 + file) == rank && FileOf(rank * 8 + file) == file
  {
    StepWest(cur);
    SquareOfRankFile(rank, file);
    SquareEq(rank * 8 + file, cur - 1);
  }

  lemma NextSouthEast(cur: Square, rank: bv6, file: bv6)
    requires rank == RankOf(cur) + 1 && file == FileOf(cur) + 1 && rank <= 7 && file <= 7
    ensures !AtEdge(cur, SouthEast) && Step(cur, SouthEast) == rank * 8 + file
    ensures RankOf(rank * 8 + file) == rank && FileOf(rank * 8 + file) == file
  {
    StepSouthEast(cur);
    SquareOfRankFile(rank, file);
    SquareEq(rank * 8 + file, cur + 9);
  }

  lemma NextNorthWest(cur: Square, rank: bv6, file: bv6)
    requires rank == RankOf(cur) - 1 && file == FileOf(cur) - 1 && RankOf(cur) > 0 && FileOf(cur) > 0
    ensures !AtEdge(cur, NorthWest) && Step(cur, NorthWest) == rank * 8 + file
    ensures RankOf(rank * 8 + file) == rank && FileOf(rank * 8 + file) == file
  {
    StepNorthWest(cur);
    SquareOfRankFile(rank, file);
    SquareEq(rank * 8 + file, cur - 9);
  }

  lemma NextSouthWest(cur: Square, rank: bv6, file: bv6)
    requires rank == RankOf(cur) + 1 && file == FileOf(cur) - 1 && rank <= 7 && FileOf(cur) > 0
    ensures !AtEdge(cur, SouthWest) && Step(cur, SouthWest) == rank * 8 + file
    ensures RankOf(rank * 8 + file) == rank && FileOf(rank * 8 + file) == file
  {
    StepSouthWest(cur);
    SquareOfRankFile(rank, file);
    SquareEq(rank * 8 + file, cur + 7);
  }

  lemma NextNorthEast(cur: Square, rank: bv6, file: bv6)
    requires rank == RankOf(cur) - 1 && file == FileOf(cur) + 1 && RankOf(cur) > 0 && file <= 7
    ensures !AtEdge(cur, NorthEast) && Step(cur, NorthEast) == rank * 8 + file
    ensures RankOf(rank * 8 + file) == rank && FileOf(rank * 8 + file) == file
  {
    StepNorthEast(cur);
    SquareOfRankFile(rank, file);
    SquareEq(rank * 8 + file, cur - 7);
  }

  /** One ray loop of the on-the-fly attacks: adds the South ray from the square, up to and including its first blocker. */
  method WalkSouth(square: Square, blockers: bv64, attacks0: bv64) returns (attacks: bv64)
    ensures Squares(attacks) == Squares(attacks0) + RaySet(square, South, blockers)
  {
    attacks := attacks0;
    var r, f := RankOf(square), FileOf(square);
    RankFileRange(square);
    ghost var cur := square;
    var rank: bv6, file: bv6 := r + 1, f;
    while rank <= 7
      invariant rank == RankOf(cur) + 1 && file == FileOf(cur)
      invariant Squares(attacks) + RaySet(cur, South, blockers) == Squares(attacks0) + RaySet(square, South, blockers)
      decreases 8 - rank
    {
      var sq := rank * 8 + file;
      NextSouth(cur, rank, file);
      Advance(attacks, cur, South, blockers, sq, Squares(attacks0) + RaySet(square, South, blockers));
      attacks := SetBit(attacks, sq);
      if (1 << sq) & blockers != 0 {
        break;
      }
      cur := sq;
      rank := rank + 1;
    }
    WalkDone(Squares(attacks), cur, South, blockers, Squares(attacks0) + RaySet(square, South, blockers));
  }

  /** One ray loop of the on-the-fly attacks: adds the North ray from the square, up to and including its first blocker. */
  method WalkNorth(square: Square, blockers: bv64, attacks0: bv64) returns (attacks: bv64)
    ensures Squares(attacks) == Squares(attacks0) + RaySet(square, North, blockers)
  {
    attacks := attacks0;
    var r, f := RankOf(square), FileOf(square);
    RankFileRange(square);
    ghost var cur := square;
    var rank: bv6, file: bv6 := r, f;
    while rank > 0
      invariant rank == RankOf(cur) && file == FileOf(cur)
      invariant Squares(attacks) + RaySet(cur, North, blockers) == Squares(attacks0) + RaySet(square, North, blockers)
      decreases rank
    {
      rank := rank - 1;
      var sq := rank * 8 + file;
      NextNorth(cur, rank, file);
      Advance(attacks, cur, North, blockers, sq, Squares(attacks0) + RaySet(square, North, blockers));
      attacks := SetBit(attacks, sq);
      if (1 << sq) & blockers != 0 {
        break;
      }
      cur := sq;
    }
    WalkDone(Squares(attacks), cur, North, blockers, Squares(attacks0) + RaySet(square, North, blockers));
  }

  /** One ray loop of the on-the-fly attacks: adds the East ray from the square, up to and including its first blocker. */
  method WalkEast(square: Square, blockers: bv64, attacks0: bv64) returns (attacks: bv64)
    ensures Squares(attacks) == Squares(attacks0) + RaySet(square, East, blockers)
  {
    attacks := attacks0;
    var r, f := RankOf(square), FileOf(square);
    RankFileRange(square);
    ghost var cur := square;
    var rank: bv6, file: bv6 := r, f + 1;
    while file <= 7
      invariant rank == RankOf(cur) && file == FileOf(cur) + 1
      invariant Squares(attacks) + RaySet(cur, East, blockers) == Squares(attacks0) + RaySet(square, East, blockers)
      decreases 8 - file
    {
      var sq := rank * 8 + file;
      NextEast(cur, rank, file);
      Advance(attacks, cur, East, blockers, sq, Squares(attacks0) + RaySet(square, East, blockers));
      attacks := SetBit(attacks, sq);
      if (1 << sq) & blockers != 0 {
        break;
      }
      cur := sq;
      file := file + 1;
    }
    WalkDone(Squares(attacks), cur, East, blockers, Squares(attacks0) + RaySet(square, East, blockers));
  }

  /** One ray loop of the on-the-fly attacks: adds the West ray from the square, up to and including its first blocker. */
  method WalkWest(square: Square, blockers: bv64, attacks0: bv64) returns (attacks: bv64)
    ensures Squares(attacks) == Squares(attacks0) + RaySet(square, West, blockers)
  {
    attacks := attacks0;
    var r, f := RankOf(square), FileOf(square);
    RankFileRange(square);
    ghost var cur := square;
    var rank: bv6, file: bv6 := r, f;
    while file > 0
      invariant rank == RankOf(cur) && file == FileOf(cur)
      invariant Squares(attacks) + RaySet(cur, West, blockers) == Squares(attacks0) + RaySet(square, West, blockers)
      decreases file
    {
      file := file - 1;
      var sq := rank * 8 + file;
      NextWest(cur, rank, file);
      Advance(attacks, cur, West, blockers, sq, Squares(attacks0) + RaySet(square, West, blockers));
      attacks := SetBit(attacks, sq);
      if (1 << sq) & blockers != 0 {
        break;
      }
      cur := sq;
    }
    WalkDone(Squares(attacks), cur, West, blockers, Squares(attacks0) + RaySet(square, West, blockers));
  }

  /** One ray loop of the on-the-fly attacks: adds the SouthEast ray from the square, up to and including its first blocker. */
  method WalkSouthEast(square: Square, blockers: bv64, attacks0: bv64) returns (attacks: bv64)
    ensures Squares(attacks) == Squares(attacks0) + RaySet(square, SouthEast, blockers)
  {
    attacks := attacks0;
    var r, f := RankOf(square), FileOf(square);
    RankFileRange(square);
    ghost var cur := square;
    var rank: bv6, file: bv6 := r + 1, f + 1;
    while rank <= 7 && file <= 7
      invariant rank == RankOf(cur) + 1 && file == FileOf(cur) + 1
      invariant Squares(attacks) + RaySet(cur, SouthEast, blockers) == Squares(attacks0) + RaySet(square, SouthEast, blockers)
      decreases 8 - rank
    {
      var sq := rank * 8 + file;
      NextSouthEast(cur, rank, file);
      Advance(attacks, cur, SouthEast, blockers, sq, Squares(attacks0) + RaySet(square, SouthEast, blockers));
      attacks := SetBit(attacks, sq);
      if (1 << sq) & blockers != 0 {
        break;
      }
      cur := sq;
      rank, file := rank + 1, file + 1;
    }
    WalkDone(Squares(attacks), cur, SouthEast, blockers, Squares(attacks0) + RaySet(square, SouthEast, blockers));
  }

  /** One ray loop of the on-the-fly attacks: adds the NorthWest ray from the square, up to and including its first blocker. */
  method WalkNorthWest(square: Square, blockers: bv64, attacks0: bv64) returns (attacks: bv64)
    ensures Squares(attacks) == Squares(attacks0) + RaySet(square, NorthWest, blockers)
  {
    attacks := attacks0;
    var r, f := RankOf(square), FileOf(square);
    RankFileRange(square);
    ghost var cur := square;
    var rank: bv6, file: bv6 := r, f;
    while rank > 0 && file > 0
      invariant rank == RankOf(cur) && file == FileOf(cur)
      invariant Squares(attacks) + RaySet(cur, NorthWest, blockers) == Squares(attacks0) + RaySet(square, NorthWest, blockers)
      decreases rank
    {
      rank, file := rank - 1, file - 1;
      var sq := rank * 8 + file;
      NextNorthWest(cur, rank, file);
      Advance(attacks, cur, NorthWest, blockers, sq, Squares(attacks0) + RaySet(square, NorthWest, blockers));
      attacks := SetBit(attacks, sq);
      if (1 << sq) & blockers != 0 {
        break;
      }
      cur := sq;
    }
    WalkDone(Squares(attacks), cur, NorthWest, blockers, Squares(attacks0) + RaySet(square, NorthWest, blockers));
  }

  /** One ray loop of the on-the-fly attacks: adds the SouthWest ray from the square, up to and including its first blocker. */
  method WalkSouthWest(square: Square, blockers: bv64, attacks0: bv64) returns (attacks: bv64)
    ensures Squares(attacks) == Squares(attacks0) + RaySet(square, SouthWest, blockers)
  {
    attacks := attacks0;
    var r, f := RankOf(square), FileOf(square);
    RankFileRange(square);
    ghost var cur := square;
    var rank: bv6, file: bv6 := r + 1, f;
    while rank <= 7 && file > 0
      invariant rank == RankOf(cur) + 1 && file == FileOf(cur)
      invariant Squares(attacks) + RaySet(cur, SouthWest, blockers) == Squares(attacks0) + RaySet(square, SouthWest, blockers)
      decreases 8 - rank
    {
      file := file - 1;
      var sq := rank * 8 + file;
      NextSouthWest(cur, rank, file);
      Advance(attacks, cur, SouthWest, blockers, sq, Squares(attacks0) + RaySet(square, SouthWest, blockers));
      attacks := SetBit(attacks, sq);
      if (1 << sq) & blockers != 0 {
        break;
      }
      cur := sq;
      rank := rank + 1;
    }
    WalkDone(Squares(attacks), cur, SouthWest, blockers, Squares(attacks0) + RaySet(square, SouthWest, blockers));
  }

  /** One ray loop of the on-the-fly attacks: adds the NorthEast ray from the square, up to and including its first blocker. */
  method WalkNorthEast(square: Square, blockers: bv64, attacks0: bv64) returns (attacks: bv64)
    ensures Squares(attacks) == Squares(attacks0) + RaySet(square, NorthEast, blockers)
  {
    attacks := attacks0;
    var r, f := RankOf(square), FileOf(square);
    RankFileRange(square);
    ghost var cur := square;
    var rank: bv6, file: bv6 := r, f + 1;
    while rank > 0 && file <= 7
      invariant rank == RankOf(cur) && file == FileOf(cur) + 1
      invariant Squares(attacks) + RaySet(cur, NorthEast, blockers) == Squares(attacks0) + RaySet(square, NorthEast, blockers)
      decreases rank
    {
      rank := rank - 1;
      var sq := rank * 8 + file;
      NextNorthEast(cur, rank, file);
      Advance(attacks, cur, NorthEast, blockers, sq, Squares(attacks0) + RaySet(square, NorthEast, blockers));
      attacks := SetBit(attacks, sq);
      if (1 << sq) & blockers != 0 {
        break;
      }
      cur := sq;
      file := file + 1;
    }
    WalkDone(Squares(attacks), cur, NorthEast, blockers, Squares(attacks0) + RaySet(square, NorthEast, blockers));
  }

  /** `generate_rook_attacks_on_the_fly`: walks south, north, east and west from the square, stopping after the first blocker on each ray. */
  method RookAttacksOnTheFly(square: Square, blockers: bv64) returns (attacks: bv64)
    ensures Squares(attacks) == RookAttacks(square, blockers)
  {
    attacks := 0;
    SquaresZero();
    attacks := WalkSouth(square, blockers, attacks);
    attacks := WalkNorth(square, blockers, attacks);
    attacks := WalkEast(square, blockers, attacks);
    attacks := WalkWest(square, blockers, attacks);
    EmptyUnion(RaySet(square, South, blockers));
  }

  /** `generate_bishop_attacks_on_the_fly`: walks the four diagonals from the square, stopping after the first blocker on each. */
  method BishopAttacksOnTheFly(square: Square, blockers: bv64) returns (attacks: bv64)
    ensures Squares(attacks) == BishopAttacks(square, blockers)
  {
    attacks := 0;
    SquaresZero();
    attacks := WalkSouthEast(square, blockers, attacks);
    attacks := WalkNorthWest(square, blockers, attacks);
    attacks := WalkSouthWest(square, blockers, attacks);
    attacks := WalkNorthEast(square, blockers, attacks);
    EmptyUnion(RaySet(square, SouthEast, blockers));
  }

  // ---------------------------------------------------------------------
  // Sliders: relevance masks
  // ---------------------------------------------------------------------

  /**
   * The relevant squares of the ray from s along d: the squares of the ray
   * except the last one before the board edge (a piece there cannot block
   * anything further, so the magic index ignores it).
   */
  ghost function Relevant(s: Square, d: Direction): set<Square>
    decreases Room(s, d)
  {
    if AtEdge(s, d) then {}
    else
      var n := Step(s, d);
      if AtEdge(n, d) then {} else Relevant(n, d) + {n}
  }

  /** A square is relevant exactly when it lies on the ray and is not at the board edge in that direction. */
  lemma {:induction false} RelevantMembers(s: Square, d: Direction, t: Square)
    ensures t in Relevant(s, d) <==> OnRay(s, d, t) && !AtEdge(t, d)
    decreases Room(s, d)
  {
    if AtEdge(s, d) {
      OnRayEdge(s, d, t);
    } else {
      var n := Step(s, d);
      OnRayStep(s, d, t);
      if AtEdge(n, d) {
        OnRayEdge(n, d, t);
      } else {
        RelevantMembers(n, d, t);
      }
    }
  }

  /** The rook's relevance mask: its four rays without their edge squares. */
  ghost function RookMask(s: Square): set<Square> {
    Relevant(s, South) + Relevant(s, North) + Relevant(s, East) + Relevant(s, West)
  }

  /** The bishop's relevance mask: its four diagonals without their edge squares. */
  ghost function BishopMask(s: Square): set<Square> {
    Relevant(s, SouthEast) + Relevant(s, NorthWest) + Relevant(s, SouthWest) + Relevant(s, NorthEast)
  }

  /** One iteration of an outward mask loop: the square n after cur is added. */
  lemma AdvanceRelevant(a: bv64, cur: Square, d: Direction, n: Square, whole: set<Square>)
    requires !AtEdge(cur, d) && n == Step(cur, d) && !AtEdge(n, d)
    requires Squares(a) + Relevant(cur, d) == whole
    ensures Squares(SetBit(a, n)) + Relevant(n, d) == whole
  {
    SquaresSetBit(a, n);
  }

  /** An outward mask loop has stopped one square before the edge, or at it. */
  lemma RelevantDone(acc: set<Square>, cur: Square, d: Direction, whole: set<Square>)
    requires AtEdge(cur, d) || AtEdge(Step(cur, d), d)
    requires acc + Relevant(cur, d) == whole
    ensures acc == whole
  {
  }

  lemma StepSouthEdge(cur: Square)
    requires RankOf(cur) == 7 || RankOf(cur) == 6
    ensures AtEdge(cur, South) || AtEdge(Step(cur, South), South)
  {
    if !AtEdge(cur, South) {
      StepSouth(cur);
    }
  }

  lemma StepEastEdge(cur: Square)
    requires FileOf(cur) == 7 || FileOf(cur) == 6
    ensures AtEdge(cur, East) || AtEdge(Step(cur, East), East)
  {
    if !AtEdge(cur, East) {
      StepEast(cur);
    }
  }

  lemma StepSouthEastEdge(cur: Square)
    requires RankOf(cur) >= 6 || FileOf(cur) >= 6
    ensures AtEdge(cur, SouthEast) || AtEdge(Step(cur, SouthEast), SouthEast)
  {
    if !AtEdge(cur, SouthEast) {
      StepSouthEast(cur);
    }
  }

  lemma StepNorthWestEdge(cur: Square)
    requires RankOf(cur) <= 1 || FileOf(cur) <= 1
    ensures AtEdge(cur, NorthWest) || AtEdge(Step(cur, NorthWest), NorthWest)
  {
    if !AtEdge(cur, NorthWest) {
      StepNorthWest(cur);
    }
  }

  lemma StepSouthWestEdge(cur: Square)
    requires RankOf(cur) >= 6 || FileOf(cur) <= 1
    ensures AtEdge(cur, SouthWest) || AtEdge(Step(cur, SouthWest), SouthWest)
  {
    if !AtEdge(cur, SouthWest) {
      StepSouthWest(cur);
    }
  }

  lemma StepNorthEastEdge(cur: Square)
    requires RankOf(cur) <= 1 || FileOf(cur) >= 6
    ensures AtEdge(cur, NorthEast) || AtEdge(Step(cur, NorthEast), NorthEast)
  {
    if !AtEdge(cur, NorthEast) {
      StepNorthEast(cur);
    }
  }

  /** The squares of file f with rank index in lo..hi-1. */
  ghost function Column(f: bv6, lo: bv6, hi: bv6): set<Square> {
    set t | t in ALL && FileOf(t) == f && lo <= RankOf(t) < hi
  }

  /** The squares of rank r with file index in lo..hi-1. */
  ghost function Row(r: bv6, lo: bv6, hi: bv6): set<Square> {
    set t | t in ALL && RankOf(t) == r && lo <= FileOf(t) < hi
  }

  lemma ColumnAt(f: bv6, lo: bv6, hi: bv6, t: Square)
    requires f < 8 && lo <= hi < 8
    ensures t in Column(f, lo, hi + 1) <==> t in Column(f, lo, hi) || t == hi * 8 + f
  {
    InAll(t);
    SquareOfRankFile(hi, f);
    if FileOf(t) == f && RankOf(t) == hi {
      SquareEq(t, hi * 8 + f);
    }
  }

  lemma ColumnStep(f: bv6, lo: bv6, hi: bv6)
    requires f < 8 && lo <= hi < 8
    ensures Column(f, lo, hi + 1) == Column(f, lo, hi) + {hi * 8 + f}
  {
    forall t: Square ensures t in Column(f, lo, hi + 1) <==> t in Column(f, lo, hi) || t == hi * 8 + f {
      ColumnAt(f, lo, hi, t);
    }
  }

  lemma ColumnGrow(a: bv64, f: bv6, lo: bv6, hi: bv6, whole: set<Square>)
    requires f < 8 && lo <= hi < 8
    requires Squares(a) == whole + Column(f, lo, hi)
    ensures Squares(SetBit(a, hi * 8 + f)) == whole + Column(f, lo, hi + 1)
  {
    SquaresSetBit(a, hi * 8 + f);
    ColumnStep(f, lo, hi);
  }

  lemma RowAt(r: bv6, lo: bv6, hi: bv6, t: Square)
    requires r < 8 && lo <= hi < 8
    ensures t in Row(r, lo, hi + 1) <==> t in Row(r, lo, hi) || t == r * 8 + hi
  {
    InAll(t);
    SquareOfRankFile(r, hi);
    if RankOf(t) == r && FileOf(t) == hi {
      SquareEq(t, r * 8 + hi);
    }
  }

  lemma RowStep(r: bv6, lo: bv6, hi: bv6)
    requires r < 8 && lo <= hi < 8
    ensures Row(r, lo, hi + 1) == Row(r, lo, hi) + {r * 8 + hi}
  {
    forall t: Square ensures t in Row(r, lo, hi + 1) <==> t in Row(r, lo, hi) || t == r * 8 + hi {
      RowAt(r, lo, hi, t);
    }
  }

  lemma RowGrow(a: bv64, r: bv6, lo: bv6, hi: bv6, whole: set<Square>)
    requires r < 8 && lo <= hi < 8
    requires Squares(a) == whole + Row(r, lo, hi)
    ensures Squares(SetBit(a, r * 8 + hi)) == whole + Row(r, lo, hi + 1)
  {
    SquaresSetBit(a, r * 8 + hi);
    RowStep(r, lo, hi);
  }

  /** The relevant squares north of s are those of its file from rank index 1 up to its own, exclusive. */
  lemma RelevantNorth(s: Square)
    ensures Relevant(s, North) == Column(FileOf(s), 1, RankOf(s))
  {
    forall t: Square ensures t in Relevant(s, North) <==> t in Column(FileOf(s), 1, RankOf(s)) {
      RelevantMembers(s, North, t);
      InAll(t);
    }
  }

  /** The relevant squares west of s are those of its rank from file index 1 up to its own, exclusive. */
  lemma RelevantWest(s: Square)
    ensures Relevant(s, West) == Row(RankOf(s), 1, FileOf(s))
  {
    forall t: Square ensures t in Relevant(s, West) <==> t in Row(RankOf(s), 1, FileOf(s)) {
      RelevantMembers(s, West, t);
      InAll(t);
    }
  }

  /** One loop of the relevance mask: adds the South ray from the square, without its edge square. */
  method MaskSouth(square: Square, attacks0: bv64) returns (attacks: bv64)
    ensures Squares(attacks) == Squares(attacks0) + Relevant(square, South)
  {
    attacks := attacks0;
    var r, f := RankOf(square), FileOf(square);
    RankFileRange(square);
    ghost var cur := square;
    var rank: bv6, file: bv6 := r + 1, f;
    while rank <= 6
      invariant rank == RankOf(cur) + 1 && file == FileOf(cur)
      invariant Squares(attacks) + Relevant(cur, South) == Squares(attacks0) + Relevant(square, South)
      decreases 8 - rank
    {
      var sq := rank * 8 + file;
      NextSouth(cur, rank, file);
      AdvanceRelevant(attacks, cur, South, sq, Squares(attacks0) + Relevant(square, South));
      attacks := SetBit(attacks, sq);
      cur := sq;
      rank := rank + 1;
    }
    StepSouthEdge(cur);
    RelevantDone(Squares(attacks), cur, South, Squares(attacks0) + Relevant(square, South));
  }

  /** One loop of the relevance mask: adds the East ray from the square, without its edge square. */
  method MaskEast(square: Square, attacks0: bv64) returns (attacks: bv64)
    ensures Squares(attacks) == Squares(attacks0) + Relevant(square, East)
  {
    attacks := attacks0;
    var r, f := RankOf(square), FileOf(square);
    RankFileRange(square);
    ghost var cur := square;
    var rank: bv6, file: bv6 := r, f + 1;
    while file <= 6
      invariant rank == RankOf(cur) && file == FileOf(cur) + 1
      invariant Squares(attacks) + Relevant(cur, East) == Squares(attacks0) + Relevant(square, East)
      decreases 8 - file
    {
      var sq := rank * 8 + file;
      NextEast(cur, rank, file);
      AdvanceRelevant(attacks, cur, East, sq, Squares(attacks0) + Relevant(square, East));
      attacks := SetBit(attacks, sq);
      cur := sq;
      file := file + 1;
    }
    StepEastEdge(cur);
    RelevantDone(Squares(attacks), cur, East, Squares(attacks0) + Relevant(square, East));
  }

  /** One loop of the relevance mask: adds the SouthEast ray from the square, without its edge square. */
  method MaskSouthEast(square: Square, attacks0: bv64) returns (attacks: bv64)
    ensures Squares(attacks) == Squares(attacks0) + Relevant(square, SouthEast)
  {
    attacks := attacks0;
    var r, f := RankOf(square), FileOf(square);
    RankFileRange(square);
    ghost var cur := square;
    var rank: bv6, file: bv6 := r + 1, f + 1;
    while rank <= 6 && file <= 6
      invariant rank == RankOf(cur) + 1 && file == FileOf(cur) + 1
      invariant Squares(attacks) + Relevant(cur, SouthEast) == Squares(attacks0) + Relevant(square, SouthEast)
      decreases 8 - rank
    {
      var sq := rank * 8 + file;
      NextSouthEast(cur, rank, file);
      AdvanceRelevant(attacks, cur, SouthEast, sq, Squares(attacks0) + Relevant(square, SouthEast));
      attacks := SetBit(attacks, sq);
      cur := sq;
      rank, file := rank + 1, file + 1;
    }
    StepSouthEastEdge(cur);
    RelevantDone(Squares(attacks), cur, SouthEast, Squares(attacks0) + Relevant(square, SouthEast));
  }

  /** One loop of the relevance mask: adds the NorthWest ray from the square, without its edge square. */
  method MaskNorthWest(square: Square, attacks0: bv64) returns (attacks: bv64)
    ensures Squares(attacks) == Squares(attacks0) + Relevant(square, NorthWest)
  {
    attacks := attacks0;
    var r, f := RankOf(square), FileOf(square);
    RankFileRange(square);
    ghost var cur := square;
    var rank: bv6, file: bv6 := r, f;
    while rank > 1 && file > 1
      invariant rank == RankOf(cur) && file == FileOf(cur)
      invariant Squares(attacks) + Relevant(cur, NorthWest) == Squares(attacks0) + Relevant(square, NorthWest)
      decreases rank
    {
      rank, file := rank - 1, file - 1;
      var sq := rank * 8 + file;
      NextNorthWest(cur, rank, file);
      AdvanceRelevant(attacks, cur, NorthWest, sq, Squares(attacks0) + Relevant(square, NorthWest));
      attacks := SetBit(attacks, sq);
      cur := sq;
    }
    StepNorthWestEdge(cur);
    RelevantDone(Squares(attacks), cur, NorthWest, Squares(attacks0) + Relevant(square, NorthWest));
  }

  /** One loop of the relevance mask: adds the SouthWest ray from the square, without its edge square. */
  method MaskSouthWest(square: Square, attacks0: bv64) returns (attacks: bv64)
    ensures Squares(attacks) == Squares(attacks0) + Relevant(square, SouthWest)
  {
    attacks := attacks0;
    var r, f := RankOf(square), FileOf(square);
    RankFileRange(square);
    ghost var cur := square;
    var rank: bv6, file: bv6 := r + 1, f;
    while rank <= 6 && file > 1
      invariant rank == RankOf(cur) + 1 && file == FileOf(cur)
      invariant Squares(attacks) + Relevant(cur, SouthWest) == Squares(attacks0) + Relevant(square, SouthWest)
      decreases 8 - rank
    {
      file := file - 1;
      var sq := rank * 8 + file;
      NextSouthWest(cur, rank, file);
      AdvanceRelevant(attacks, cur, SouthWest, sq, Squares(attacks0) + Relevant(square, SouthWest));
      attacks := SetBit(attacks, sq);
      cur := sq;
      rank := rank + 1;
    }
    StepSouthWestEdge(cur);
    RelevantDone(Squares(attacks), cur, SouthWest, Squares(attacks0) + Relevant(square, SouthWest));
  }

  /** One loop of the relevance mask: adds the NorthEast ray from the square, without its edge square. */
  method MaskNorthEast(square: Square, attacks0: bv64) returns (attacks: bv64)
    ensures Squares(attacks) == Squares(attacks0) + Relevant(square, NorthEast)
  {
    attacks := attacks0;
    var r, f := RankOf(square), FileOf(square);
    RankFileRange(square);
    ghost var cur := square;
    var rank: bv6, file: bv6 := r, f + 1;
    while rank > 1 && file <= 6
      invariant rank == RankOf(cur) && file == FileOf(cur) + 1
      invariant Squares(attacks) + Relevant(cur, NorthEast) == Squares(attacks0) + Relevant(square, NorthEast)
      decreases rank
    {
      rank := rank - 1;
      var sq := rank * 8 + file;
      NextNorthEast(cur, rank, file);
      AdvanceRelevant(attacks, cur, NorthEast, sq, Squares(attacks0) + Relevant(square, NorthEast));
      attacks := SetBit(attacks, sq);
      cur := sq;
      file := file + 1;
    }
    StepNorthEastEdge(cur);
    RelevantDone(Squares(attacks), cur, NorthEast, Squares(attacks0) + Relevant(square, NorthEast));
  }

  /** The north loop of the rook mask: ranks 1 up to the square's own, exclusive, on its file. */
  method MaskNorth(square: Square, attacks0: bv64) returns (attacks: bv64)
    ensures Squares(attacks) == Squares(attacks0) + Relevant(square, North)
  {
    attacks := attacks0;
    var r, f := RankOf(square), FileOf(square);
    RankFileRange(square);
    var rank: bv6 := 1;
    EmptyColumn(attacks0, f);
    while rank < r
      invariant 1 <= rank && (rank <= r || rank == 1)
      invariant Squares(attacks) == Squares(attacks0) + Column(f, 1, rank)
      decreases 8 - rank
    {
      ColumnGrow(attacks, f, 1, rank, Squares(attacks0));
      attacks := SetBit(attacks, rank * 8 + f);
      rank := rank + 1;
    }
    RelevantNorth(square);
    if r == 0 {
      EmptyColumns(f, r, rank);
    }
  }

  /** The west loop of the rook mask: files 1 up to the square's own, exclusive, on its rank. */
  method MaskWest(square: Square, attacks0: bv64) returns (attacks: bv64)
    ensures Squares(attacks) == Squares(attacks0) + Relevant(square, West)
  {
    attacks := attacks0;
    var r, f := RankOf(square), FileOf(square);
    RankFileRange(square);
    var file: bv6 := 1;
    EmptyRow(attacks0, r);
    while file < f
      invariant 1 <= file && (file <= f || file == 1)
      invariant Squares(attacks) == Squares(attacks0) + Row(r, 1, file)
      decreases 8 - file
    {
      RowGrow(attacks, r, 1, file, Squares(attacks0));
      attacks := SetBit(attacks, r * 8 + file);
      file := file + 1;
    }
    RelevantWest(square);
    if f == 0 {
      EmptyRows(r, f, file);
    }
  }

  lemma EmptyColumn(a: bv64, f: bv6)
    ensures Squares(a) == Squares(a) + Column(f, 1, 1)
  {
    assert Column(f, 1, 1) == {};
  }

  lemma EmptyRow(a: bv64, r: bv6)
    ensures Squares(a) == Squares(a) + Row(r, 1, 1)
  {
    assert Row(r, 1, 1) == {};
  }

  lemma EmptyColumns(f: bv6, hi: bv6, hi': bv6)
    requires hi <= 1 && hi' <= 1
    ensures Column(f, 1, hi) == Column(f, 1, hi')
  {
  }

  lemma EmptyRows(r: bv6, hi: bv6, hi': bv6)
    requires hi <= 1 && hi' <= 1
    ensures Row(r, 1, hi) == Row(r, 1, hi')
  {
  }

  /** `mask_rook_attacks`: the rook's relevance mask, built south, north, east, then west. */
  method MaskRookAttacks(square: Square) returns (attacks: bv64)
    ensures Squares(attacks) == RookMask(square)
  {
    attacks := 0;
    SquaresZero();
    attacks := MaskSouth(square, attacks);
    attacks := MaskNorth(square, attacks);
    attacks := MaskEast(square, attacks);
    attacks := MaskWest(square, attacks);
    EmptyUnion(Relevant(square, South));
  }

  /** `mask_bishop_attacks`: the bishop's relevance mask, built along the four diagonals. */
  method MaskBishopAttacks(square: Square) returns (attacks: bv64)
    ensures Squares(attacks) == BishopMask(square)
  {
    attacks := 0;
    SquaresZero();
    attacks := MaskSouthEast(square, attacks);
    attacks := MaskNorthWest(square, attacks);
    attacks := MaskSouthWest(square, attacks);
    attacks := MaskNorthEast(square, attacks);
    EmptyUnion(Relevant(square, SouthEast));
  }

  /** A relevant square lies on the ray, is not the origin, and is attacked on an empty board. */
  lemma RelevantOnRay(s: Square, d: Direction, t: Square)
    requires t in Relevant(s, d)
    ensures t != s && OnRay(s, d, t) && !AtEdge(t, d)
    ensures t in RaySet(s, d, 0)
  {
    RelevantMembers(s, d, t);
    OnRayOrdered(s, d, t);
    RayAttacks(s, d, 0, t);
    forall u: Square ensures !Bit(0, u) {
      ZeroHasNoBits(u);
    }
  }

  /**
   * The bishop's relevance mask omits its own square and every square on
   * the board's rim, and lies within its empty-board attacks.
   */
  lemma BishopMaskInterior(s: Square, t: Square)
    requires t in BishopMask(s)
    ensures t != s && 0 < RankOf(t) < 7 && 0 < FileOf(t) < 7
    ensures t in BishopAttacks(s, 0)
  {
    RankFileRange(s);
    RankFileRange(t);
    if t in Relevant(s, SouthEast) {
      RelevantOnRay(s, SouthEast, t);
    } else if t in Relevant(s, NorthWest) {
      RelevantOnRay(s, NorthWest, t);
    } else if t in Relevant(s, SouthWest) {
      RelevantOnRay(s, SouthWest, t);
    } else {
      RelevantOnRay(s, NorthEast, t);
    }
  }

  /**
   * The rook's relevance mask omits its own square; along its file it
   * omits the first and last rank, along its rank the a- and h-files; and
   * it lies within its empty-board attacks.
   */
  lemma RookMaskInterior(s: Square, t: Square)
    requires t in RookMask(s)
    ensures t != s && (FileOf(t) == FileOf(s) || RankOf(t) == RankOf(s))
    ensures FileOf(t) == FileOf(s) ==> 0 < RankOf(t) < 7
    ensures RankOf(t) == RankOf(s) ==> 0 < FileOf(t) < 7
    ensures t in RookAttacks(s, 0)
  {
    RankFileRange(s);
    RankFileRange(t);
    if FileOf(t) == FileOf(s) && RankOf(t) == RankOf(s) {
      SquareEq(s, t);
    }
    if t in Relevant(s, South) {
      RelevantOnRay(s, South, t);
    } else if t in Relevant(s, North) {
      RelevantOnRay(s, North, t);
    } else if t in Relevant(s, East) {
      RelevantOnRay(s, East, t);
    } else {
      RelevantOnRay(s, West, t);
    }
  }

  // ---------------------------------------------------------------------
  // Attacks are symmetric: who attacks a square, read from the square
  // ---------------------------------------------------------------------

  /** A pawn of the other colour on s attacks t exactly when a pawn of `side` on t attacks s. */
  lemma PawnSymmetric(s: Square, t: Square, side: Color)
    ensures t in PawnTargets(s, Not(side)) <==> s in PawnTargets(t, side)
  {
    InAll(s);
    InAll(t);
    DistSymmetric(FileOf(s), FileOf(t));
    if side == White {
      assert t in PawnTargets(s, Black) <==> RankOf(t) == RankOf(s) + 1 && Dist(FileOf(s), FileOf(t)) == 1;
      assert s in PawnTargets(t, White) <==> RankOf(s) + 1 == RankOf(t) && Dist(FileOf(t), FileOf(s)) == 1;
    } else {
      assert t in PawnTargets(s, White) <==> RankOf(t) + 1 == RankOf(s) && Dist(FileOf(s), FileOf(t)) == 1;
      assert s in PawnTargets(t, Black) <==> RankOf(s) == RankOf(t) + 1 && Dist(FileOf(t), FileOf(s)) == 1;
    }
  }

  lemma DistSymmetric(a: bv6, b: bv6)
    ensures Dist(a, b) == Dist(b, a)
  {
  }

  /** Knights attack each other: t is a knight's jump from s exactly when s is one from t. */
  lemma KnightSymmetric(s: Square, t: Square)
    ensures t in KnightTargets(s) <==> s in KnightTargets(t)
  {
    InAll(s);
    InAll(t);
    DistSymmetric(RankOf(s), RankOf(t));
    DistSymmetric(FileOf(s), FileOf(t));
  }

  /** Kings attack each other: t neighbours s exactly when s neighbours t. */
  lemma KingSymmetric(s: Square, t: Square)
    ensures t in KingTargets(s) <==> s in KingTargets(t)
  {
    InAll(s);
    InAll(t);
    DistSymmetric(RankOf(s), RankOf(t));
    DistSymmetric(FileOf(s), FileOf(t));
  }

  /** A rook on s reaches t exactly when a rook on t reaches s. */
  lemma RookSymmetric(s: Square, t: Square, blockers: bv64)
    ensures t in RookAttacks(s, blockers) <==> s in RookAttacks(t, blockers)
  {
    RaySymmetric(s, South, t, blockers);
    RaySymmetric(s, North, t, blockers);
    RaySymmetric(s, East, t, blockers);
    RaySymmetric(s, West, t, blockers);
  }

  /** A bishop on s reaches t exactly when a bishop on t reaches s. */
  lemma BishopSymmetric(s: Square, t: Square, blockers: bv64)
    ensures t in BishopAttacks(s, blockers) <==> s in BishopAttacks(t, blockers)
  {
    RaySymmetric(s, SouthEast, t, blockers);
    RaySymmetric(s, NorthWest, t, blockers);
    RaySymmetric(s, SouthWest, t, blockers);
    RaySymmetric(s, NorthEast, t, blockers);
  }
}
