/**
 * The triangular principal-variation table of the searcher
 * (`search/evaluate.rs`): row `p` holds the best line found from ply `p`,
 * and `length[p]` says how much of the row is meaningful.
 */
module TriangularPv {
  import opened MoveEffects
  import PrincipalVariations

  const MAX_PLY: nat := 64

  /** A line fits in the rows below it: at most `MAX_PLY - p` moves start at ply `p`. */
  predicate LengthsFit(length: seq<int>)
  {
    |length| == MAX_PLY && forall p | 0 <= p < MAX_PLY :: 0 <= length[p] <= MAX_PLY - p
  }

  class PVTable {
    var table: array2<MoveFields>
    var length: array<int>

    ghost predicate Valid()
      reads this, length
    {
      && table.Length0 == MAX_PLY && table.Length1 == MAX_PLY
      && LengthsFit(length[..])
    }

    /** The principal variation stored for ply `p`. */
    function Line(p: nat): (line: seq<MoveFields>)
      requires Valid() && p < MAX_PLY
      reads this, table, length
      ensures |line| == length[p] <= MAX_PLY - p
    {
      var t, n := table, length[p];
      seq(n, i requires 0 <= i < n && i < t.Length1 && p < t.Length0 reads t => t[p, i])
    }

    /** `new`: every cell holds the default move and every line is empty. */
    constructor ()
      ensures Valid() && fresh(table) && fresh(length)
      ensures forall p | 0 <= p < MAX_PLY :: Line(p) == []
    {
      table := new MoveFields[MAX_PLY, MAX_PLY]((_, _) => PrincipalVariations.NULL_MOVE);
      length := new int[MAX_PLY](_ => 0);
    }

    /** `clear_at`: empties the line of one ply and nothing else; a ply beyond the table is ignored. */
    method ClearAt(ply: nat)
      requires Valid()
      modifies length
      ensures Valid()
      ensures ply < MAX_PLY ==> length[..] == old(length[..])[ply := 0]
      ensures ply >= MAX_PLY ==> length[..] == old(length[..])
    {
      if ply < MAX_PLY {
        length[ply] := 0;
      }
    }

    /**
     * `update`: the line at `ply` becomes `m` followed by the line of the
     * next ply; the last ply's line becomes `[m]`. Other lines, and the
     * cells of row `ply` past the new line, are unchanged.
     */
    method Update(ply: nat, m: MoveFields)
      requires Valid()
      modifies table, length
      ensures Valid()
      ensures ply + 1 < MAX_PLY ==> Line(ply) == [m] + old(Line(ply + 1))
      ensures ply + 1 == MAX_PLY ==> Line(ply) == [m]
      ensures ply < MAX_PLY ==> length[..] == old(length[..])[ply := length[ply]]
      ensures ply >= MAX_PLY ==> length[..] == old(length[..])
      ensures forall q, i | 0 <= q < MAX_PLY && 0 <= i < MAX_PLY && (q != ply || i >= length[q])
                :: table[q, i] == old(table[q, i])
    {
      if ply >= MAX_PLY {
        return;
      }
      table[ply, 0] := m;
      if ply + 1 < MAX_PLY {
        var childLen := length[ply + 1];
        CopyChild(ply, childLen);
        length[ply] := childLen + 1;
      } else {
        length[ply] := 1;
      }
    }

    /** The copy loop of `update`: cells 1 .. childLen of row `ply` take row `ply + 1`. */
    method CopyChild(ply: nat, childLen: int)
      requires table.Length0 == MAX_PLY && table.Length1 == MAX_PLY
      requires ply + 1 < MAX_PLY && 0 <= childLen <= MAX_PLY - ply - 1
      modifies table
      ensures forall k | 1 <= k <= childLen :: table[ply, k] == old(table[ply + 1, k - 1])
      ensures forall q, i | 0 <= q < MAX_PLY && 0 <= i < MAX_PLY && (q != ply || i == 0 || i > childLen)
                :: table[q, i] == old(table[q, i])
    {
      var i := 0;
      while i < childLen
        invariant 0 <= i <= childLen
        invariant forall k | 1 <= k <= i :: table[ply, k] == old(table[ply + 1, k - 1])
        invariant forall q, k | 0 <= q < MAX_PLY && 0 <= k < MAX_PLY && (q != ply || k == 0 || k > i)
                    :: table[q, k] == old(table[q, k])
      {
        if i + 1 < MAX_PLY {
          table[ply, i + 1] := table[ply + 1, i];
        }
        i := i + 1;
      }
    }

    /** `get_pv`: the line of ply 0, which always fits in the table. */
    function GetPv(): (pv: seq<MoveFields>)
      requires Valid()
      reads this, table, length
      ensures |pv| <= MAX_PLY && pv == Line(0)
    {
      Line(0)
    }
  }
}
