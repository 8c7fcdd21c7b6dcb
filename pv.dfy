/**
 * The principal-variation hash table of `pv.rs`: like the transposition
 * table, a fixed vector indexed by `key % PV_SIZE` whose slots are
 * overwritten unconditionally; a probe returns the stored move only when
 * the stored key is the probed key.
 */
module PrincipalVariations {
  import opened Wrappers
  import opened Bits
  import Colors
  import Pieces
  import opened Castling
  import opened Board
  import opened MoveEffects
  import opened Positions
  import opened MoveGeneration
  import opened Walks

  const PV_SIZE: nat := 0x400000

  /**
   * `chess::NULL_MOVE`, the move a cleared slot holds: no piece, no capture,
   * no promotion, no flags, both squares 0.
   */
  const NULL_MOVE: MoveFields := MoveFields(0, 0, Pieces.Empty, Pieces.Empty, Pieces.Empty, false, false)

  datatype PvEntry = PvEntry(key: bv64, m: MoveFields)

  const DEFAULT_ENTRY: PvEntry := PvEntry(0, NULL_MOVE)

  function Slot(key: bv64): (i: nat)
    ensures i < PV_SIZE
  {
    key as int % PV_SIZE
  }

  /** The answer of a table, given as the sequence of its slots, for a key. */
  function Find(t: seq<PvEntry>, key: bv64): (r: Option<MoveFields>)
    requires |t| == PV_SIZE
    ensures r.Some? <==> t[Slot(key)].key == key
    ensures r.Some? ==> r.value == t[Slot(key)].m
  {
    var e := t[Slot(key)];
    if e.key == key then Some(e.m) else None
  }

  /** A stored move is found again under its key. */
  lemma StoreThenFind(t: seq<PvEntry>, key: bv64, m: MoveFields)
    requires |t| == PV_SIZE
    ensures Find(t[Slot(key) := PvEntry(key, m)], key) == Some(m)
  {
  }

  /** Storing under one key hides the move of another key with the same slot. */
  lemma StoreEvicts(t: seq<PvEntry>, key: bv64, m: MoveFields, other: bv64)
    requires |t| == PV_SIZE && other != key && Slot(other) == Slot(key)
    ensures Find(t[Slot(key) := PvEntry(key, m)], other) == None
  {
  }

  /** Storing leaves the answers of keys in other slots unchanged. */
  lemma StoreKeepsOthers(t: seq<PvEntry>, key: bv64, m: MoveFields, other: bv64)
    requires |t| == PV_SIZE && Slot(other) != Slot(key)
    ensures Find(t[Slot(key) := PvEntry(key, m)], other) == Find(t, other)
  {
  }

  /**
   * A cleared table still answers key 0, with the null move: the default
   * entry's key is 0, so it cannot be told from a stored entry.
   */
  lemma ClearedTableAnswers(key: bv64)
    ensures Find(seq(PV_SIZE, _ => DEFAULT_ENTRY), key) == (if key == 0 then Some(NULL_MOVE) else None)
  {
  }

  // ---------------------------------------------------------------------
  // The principal-variation line
  // ---------------------------------------------------------------------

  /** The legal moves of the walk's position, as generate_legal_moves lists them. */
  ghost function LegalHere(w: Walk): seq<MoveFields>
    requires |w.b| == 12
  {
    LegalMoves(w.b, w.turn, w.enpassant, w.castling)
  }

  /** make_move on a legal move, seen on the walk: the move is played and the hash toggled by its mask. */
  ghost function Advance(w: Walk, k: Keys, m: MoveFields): (r: Walk)
    requires WalkValid(w, k) && m in LegalHere(w)
    ensures WalkValid(r, k)
  {
    LegalMovesMembers(w.b, w.turn, w.enpassant, w.castling, m);
    Played(w, k, m)
  }

  /** One step of get_pv_line: the walk a move leads to when it is legal there, None when it is not. */
  ghost function Play(k: Keys, w: Walk, m: MoveFields): (r: Option<Walk>)
  {
    if WalkValid(w, k) && m in LegalHere(w) then Some(Advance(w, k, m)) else None
  }

  /** Play with the key tables fixed, as a step function. */
  ghost function PlayBy(k: Keys): (Walk, MoveFields) -> Option<Walk> {
    (w, m) => Play(k, w, m)
  }

  /**
   * The walk reached from w by the moves ms when the table leads through
   * them: each move is the one stored under the hash of the walk the moves
   * before it reach, and the step function accepts it there.  None when
   * the table does not lead through ms.
   */
  ghost function Trail(t: seq<PvEntry>, w: Walk, step: (Walk, MoveFields) -> Option<Walk>, ms: seq<MoveFields>): Option<Walk>
    requires |t| == PV_SIZE
    decreases |ms|
  {
    if ms == [] then Some(w)
    else
      match Trail(t, w, step, ms[..|ms| - 1])
      case None => None
      case Some(e) => if Find(t, e.hash) == Some(ms[|ms| - 1]) then step(e, ms[|ms| - 1]) else None
  }

  /** Where get_pv_line stops: the table has no move for the hash, or the step refuses its move. */
  ghost predicate Stops(t: seq<PvEntry>, e: Walk, step: (Walk, MoveFields) -> Option<Walk>)
    requires |t| == PV_SIZE
  {
    Find(t, e.hash).None? || step(e, Find(t, e.hash).value).None?
  }

  lemma InitPrefix(ms: seq<MoveFields>, j: nat)
    requires j < |ms|
    ensures ms[..|ms| - 1][..j] == ms[..j]
  {
  }

  lemma SlicePrefix(ms: seq<MoveFields>, i: nat, j: nat)
    requires j <= i <= |ms|
    ensures ms[..i][..j] == ms[..j]
  {
  }

  lemma SameInitLast(a: seq<MoveFields>, b: seq<MoveFields>)
    requires |a| == |b| > 0 && a[..|a| - 1] == b[..|b| - 1] && a[|a| - 1] == b[|b| - 1]
    ensures a == b
  {
    assert forall i | 0 <= i < |a| - 1 :: a[i] == a[..|a| - 1][i];
  }

  lemma InitOfSnoc(ms: seq<MoveFields>, m: MoveFields)
    ensures (ms + [m])[..|ms|] == ms && (ms + [m])[|ms|] == m
  {
  }

  /** The table leads through every prefix of a line it leads through. */
  lemma {:induction false} TrailPrefix(t: seq<PvEntry>, w: Walk, step: (Walk, MoveFields) -> Option<Walk>,
                                       ms: seq<MoveFields>, j: nat)
    requires |t| == PV_SIZE && Trail(t, w, step, ms).Some? && j <= |ms|
    ensures Trail(t, w, step, ms[..j]).Some?
    decreases |ms|
  {
    if j < |ms| {
      TrailPrefix(t, w, step, ms[..|ms| - 1], j);
      InitPrefix(ms, j);
    } else {
      assert ms[..j] == ms;
    }
  }

  /** The table determines the line: two lines it leads through with the same length are the same. */
  lemma {:induction false} TrailUnique(t: seq<PvEntry>, w: Walk, step: (Walk, MoveFields) -> Option<Walk>,
                                       a: seq<MoveFields>, b: seq<MoveFields>)
    requires |t| == PV_SIZE && Trail(t, w, step, a).Some? && Trail(t, w, step, b).Some? && |a| == |b|
    ensures a == b
    decreases |a|
  {
    if a != [] {
      var n := |a| - 1;
      TrailUnique(t, w, step, a[..n], b[..n]);
      SameInitLast(a, b);
    }
  }

  /** A line one move longer than line, through line, shows the table leads on from where line stops. */
  lemma LeadsOn(t: seq<PvEntry>, w: Walk, step: (Walk, MoveFields) -> Option<Walk>,
                line: seq<MoveFields>, longer: seq<MoveFields>)
    requires |t| == PV_SIZE && Trail(t, w, step, longer).Some?
    requires |longer| == |line| + 1 && longer[..|line|] == line
    ensures Trail(t, w, step, line).Some? && !Stops(t, Trail(t, w, step, line).value, step)
  {
  }

  /** No line the table leads through is longer than one that stops. */
  lemma NoLongerLine(t: seq<PvEntry>, w: Walk, step: (Walk, MoveFields) -> Option<Walk>,
                     line: seq<MoveFields>, other: seq<MoveFields>)
    requires |t| == PV_SIZE && Trail(t, w, step, line).Some? && Stops(t, Trail(t, w, step, line).value, step)
    requires Trail(t, w, step, other).Some?
    ensures |other| <= |line|
  {
    var n := |line|;
    if |other| > n {
      var longer := other[..n + 1];
      TrailPrefix(t, w, step, other, n + 1);
      SlicePrefix(other, n + 1, n);
      TrailPrefix(t, w, step, longer, n);
      TrailUnique(t, w, step, line, longer[..n]);
      LeadsOn(t, w, step, line, longer);
      assert false;
    }
  }

  /**
   * The line that stops is the longest the table leads through: every line
   * it leads through is a prefix of it.
   */
  lemma LongestLine(t: seq<PvEntry>, w: Walk, step: (Walk, MoveFields) -> Option<Walk>,
                    line: seq<MoveFields>, other: seq<MoveFields>)
    requires |t| == PV_SIZE && Trail(t, w, step, line).Some? && Stops(t, Trail(t, w, step, line).value, step)
    requires Trail(t, w, step, other).Some?
    ensures |other| <= |line| && other == line[..|other|]
  {
    NoLongerLine(t, w, step, line, other);
    TrailPrefix(t, w, step, line, |other|);
    TrailUnique(t, w, step, line[..|other|], other);
  }

  /** Every walk the legal steps reach is valid, and every move of the line is legal where it is played. */
  lemma {:induction false} PlayedLegally(t: seq<PvEntry>, w: Walk, k: Keys, ms: seq<MoveFields>, j: nat)
    requires |t| == PV_SIZE && WalkValid(w, k) && Trail(t, w, PlayBy(k), ms).Some? && j < |ms|
    ensures Trail(t, w, PlayBy(k), ms[..j]).Some?
    ensures var e := Trail(t, w, PlayBy(k), ms[..j]).value;
            WalkValid(e, k) && ms[j] in LegalHere(e) && Find(t, e.hash) == Some(ms[j])
  {
    TrailPrefix(t, w, PlayBy(k), ms, j + 1);
    SlicePrefix(ms, j + 1, j);
  }

  /**
   * make_move on a legal move: it is played, and the history slot at the
   * old depth holds the position before it but for the full-move number.
   */
  method MakeLineMove(p: Position, m: MoveFields)
    requires p.Valid() && p.depth < |p.positionStack| && m in LegalHere(WalkOf(p))
    modifies p
    ensures p.Valid() && p.depth == old(p.depth) + 1 && |p.positionStack| == old(|p.positionStack|)
    ensures WalkOf(p) == Advance(old(WalkOf(p)), KeysOf(p), m) && PlayBy(KeysOf(p))(old(WalkOf(p)), m) == Some(WalkOf(p))
    ensures p.positionStack == old(p.positionStack)[old(p.depth) := p.positionStack[old(p.depth)]]
    ensures SameBut(p.positionStack[old(p.depth)], old(p.ToHistoryEntry()))
  {
    LegalMovesMembers(p.bitboards, p.turn, p.enpassant, p.castling, m);
    ghost var w := WalkOf(p);
    var made := p.MakeMove(Encode(m), false);
    PlayLegal(KeysOf(p), w, m, WalkOf(p));
  }

  /**
   * A position that has walked `line` from the entry e0 at depth d0: the
   * table leads through the line to the position, whose depth is d0 plus
   * the line's length, and the history below d0 is untouched.  The slot at
   * d0 (or the position itself while the line is empty) is e0 but for the
   * full-move number.
   */
  ghost predicate OnLine(t: seq<PvEntry>, w0: Walk, step: (Walk, MoveFields) -> Option<Walk>, line: seq<MoveFields>,
                         e: HistoryEntry, d: nat, stack: seq<HistoryEntry>,
                         e0: HistoryEntry, d0: nat, stack0: seq<HistoryEntry>)
    requires |t| == PV_SIZE
  {
    d == d0 + |line| && d <= |stack| && |stack| == |stack0| && stack[..d0] == stack0[..d0]
    && (line == [] ==> SameBut(e, e0)) && (line != [] ==> SameBut(stack[d0], e0))
    && Trail(t, w0, step, line) == Some(EntryWalk(e))
  }

  /** Listing the legal moves keeps a position on its line. */
  lemma KeptOnLine(t: seq<PvEntry>, w0: Walk, step: (Walk, MoveFields) -> Option<Walk>, line: seq<MoveFields>,
                   e: HistoryEntry, d: nat, stack: seq<HistoryEntry>,
                   e1: HistoryEntry, d1: nat, stack1: seq<HistoryEntry>,
                   e0: HistoryEntry, d0: nat, stack0: seq<HistoryEntry>)
    requires |t| == PV_SIZE && OnLine(t, w0, step, line, e, d, stack, e0, d0, stack0)
    requires Kept(e1, d1, stack1, e, d, stack)
    ensures OnLine(t, w0, step, line, e1, d1, stack1, e0, d0, stack0) && EntryWalk(e1) == EntryWalk(e)
  {
    SameButWalk(e1, e);
    assert stack1[..d0] == stack[..d0];
  }

  /** Playing the table's legal move moves a position one move along its line. */
  lemma PlayedOnLine(t: seq<PvEntry>, w0: Walk, step: (Walk, MoveFields) -> Option<Walk>, line: seq<MoveFields>, m: MoveFields,
                     e: HistoryEntry, d: nat, stack: seq<HistoryEntry>,
                     e1: HistoryEntry, d1: nat, stack1: seq<HistoryEntry>,
                     e0: HistoryEntry, d0: nat, stack0: seq<HistoryEntry>)
    requires |t| == PV_SIZE && OnLine(t, w0, step, line, e, d, stack, e0, d0, stack0)
    requires Find(t, e.hash) == Some(m) && step(EntryWalk(e), m) == Some(EntryWalk(e1))
    requires d < |stack| == |stack1| && d1 == d + 1 && stack1 == stack[d := stack1[d]] && SameBut(stack1[d], e)
    ensures OnLine(t, w0, step, line + [m], e1, d1, stack1, e0, d0, stack0)
  {
    InitOfSnoc(line, m);
    assert stack1[..d0] == stack[..d0];
  }

  /** A legal move is a step the walk takes. */
  lemma PlayLegal(k: Keys, w: Walk, m: MoveFields, w1: Walk)
    requires WalkValid(w, k) && m in LegalHere(w) && w1 == Advance(w, k, m)
    ensures PlayBy(k)(w, m) == Some(w1)
  {
  }

  /** A move the step refuses is not legal. */
  lemma RefusedIllegal(k: Keys, w: Walk, m: MoveFields)
    requires WalkValid(w, k) && m !in LegalHere(w)
    ensures PlayBy(k)(w, m).None?
  {
  }

  /** Taking back n moves: the position is the one saved n slots down. */
  method UnmakeLine(p: Position, n: nat)
    requires p.Valid() && n <= p.depth <= |p.positionStack|
    modifies p
    ensures p.Valid() && p.depth == old(p.depth) - n && p.positionStack == old(p.positionStack)
    ensures n > 0 ==> p.ToHistoryEntry() == p.positionStack[p.depth]
    ensures n == 0 ==> p.ToHistoryEntry() == old(p.ToHistoryEntry())
  {
    ghost var stack0, d0 := p.positionStack, p.depth;
    ghost var current := p.ToHistoryEntry();
    for i := 0 to n
      invariant p.Valid() && p.depth == d0 - i && p.positionStack == stack0
      invariant p.ToHistoryEntry() == current
      invariant i > 0 ==> current == stack0[d0 - i]
      invariant i == 0 ==> current == old(p.ToHistoryEntry())
    {
      p.UnmakeMove();
      current := stack0[d0 - i - 1];
    }
  }

  /** The moves generated where the history is full would overrun it: get_pv_line panics there. */
  ghost predicate Overflows(w: Walk)
    requires |w.b| == 12
  {
    PseudoLegal(w.b, OccupanciesOf(w.b), w.turn, w.enpassant, w.castling) != []
  }

  /** With no generated move there is no legal move. */
  lemma NoneLegal(w: Walk)
    requires |w.b| == 12 && !Overflows(w)
    ensures LegalHere(w) == []
  {
  }

  /**
   * The legal moves of the position, as generate_legal_moves lists them;
   * full when the history is full and moves were generated, where
   * generate_legal_moves would overrun it.
   */
  method ListHere(p: Position, ghost t: seq<PvEntry>, ghost w0: Walk, ghost line: seq<MoveFields>,
                  ghost e0: HistoryEntry, ghost d0: nat, ghost stack0: seq<HistoryEntry>)
    returns (legal: seq<MoveFields>, full: bool)
    requires |t| == PV_SIZE && p.Valid()
    requires OnLine(t, w0, PlayBy(KeysOf(p)), line, p.ToHistoryEntry(), p.depth, p.positionStack, e0, d0, stack0)
    modifies p
    ensures p.Valid() && OnLine(t, w0, PlayBy(KeysOf(p)), line, p.ToHistoryEntry(), p.depth, p.positionStack, e0, d0, stack0)
    ensures WalkOf(p) == old(WalkOf(p))
    ensures full ==> p.depth == |p.positionStack| && Overflows(WalkOf(p))
    ensures !full ==> legal == LegalHere(WalkOf(p))
    ensures p.depth == |p.positionStack| ==> legal == []
  {
    if p.depth == |p.positionStack| {
      var pseudo := GenerateMoves(p);
      full := pseudo != [];
      if !full {
        NoneLegal(WalkOf(p));
      }
      legal := [];
    } else {
      ghost var e, d, stack := p.ToHistoryEntry(), p.depth, p.positionStack;
      legal := GenerateLegalMoves(p);
      full := false;
      KeptOnLine(t, w0, PlayBy(KeysOf(p)), line, e, d, stack, p.ToHistoryEntry(), p.depth, p.positionStack, e0, d0, stack0);
    }
  }

  /** Plays the table's move, legal here, one move further along the line. */
  method FollowMove(p: Position, m: MoveFields, ghost t: seq<PvEntry>, ghost w0: Walk, ghost line: seq<MoveFields>,
                    ghost e0: HistoryEntry, ghost d0: nat, ghost stack0: seq<HistoryEntry>)
    requires |t| == PV_SIZE && p.Valid() && p.depth < |p.positionStack|
    requires OnLine(t, w0, PlayBy(KeysOf(p)), line, p.ToHistoryEntry(), p.depth, p.positionStack, e0, d0, stack0)
    requires Find(t, p.hash) == Some(m) && m in LegalHere(WalkOf(p))
    modifies p
    ensures p.Valid()
    ensures OnLine(t, w0, PlayBy(KeysOf(p)), line + [m], p.ToHistoryEntry(), p.depth, p.positionStack, e0, d0, stack0)
  {
    ghost var e, d, stack := p.ToHistoryEntry(), p.depth, p.positionStack;
    MakeLineMove(p, m);
    PlayedOnLine(t, w0, PlayBy(KeysOf(p)), line, m, e, d, stack,
                 p.ToHistoryEntry(), p.depth, p.positionStack, e0, d0, stack0);
  }

  class PrincipalVariationTable {
    var table: array<PvEntry>

    ghost predicate Valid()
      reads this
    {
      table.Length == PV_SIZE
    }

    /** `new`: every slot holds the default entry. */
    constructor ()
      ensures Valid() && fresh(table)
      ensures table[..] == seq(PV_SIZE, _ => DEFAULT_ENTRY)
    {
      table := new PvEntry[PV_SIZE](_ => DEFAULT_ENTRY);
    }

    /** `clear`: fills the existing table with the default entry, slot by slot. */
    method Clear()
      requires Valid()
      modifies table
      ensures Valid()
      ensures table[..] == seq(PV_SIZE, _ => DEFAULT_ENTRY)
    {
      var i := 0;
      while i < table.Length
        invariant 0 <= i <= table.Length
        invariant forall j | 0 <= j < i :: table[j] == DEFAULT_ENTRY
      {
        table[i] := DEFAULT_ENTRY;
        i := i + 1;
      }
    }

    /** `store`: overwrites the key's slot. */
    method Store(key: bv64, m: MoveFields)
      requires Valid()
      modifies table
      ensures Valid()
      ensures table[..] == old(table[..])[Slot(key) := PvEntry(key, m)]
    {
      table[Slot(key)] := PvEntry(key, m);
    }

    /** `probe`: the stored move when the slot's key is the key. */
    function Probe(key: bv64): (r: Option<MoveFields>)
      requires Valid()
      reads this, table
      ensures r == Find(table[..], key)
    {
      var e := table[Slot(key)];
      if e.key == key then Some(e.m) else None
    }

    /**
     * One round of get_pv_line's loop: probe the hash, list the legal
     * moves, and play the stored move when it is among them.
     */
    method StepLine(p: Position, ghost w0: Walk, ghost line: seq<MoveFields>,
                    ghost e0: HistoryEntry, ghost d0: nat, ghost stack0: seq<HistoryEntry>)
      returns (next: Option<MoveFields>, full: bool)
      requires Valid() && p.Valid()
      requires OnLine(table[..], w0, PlayBy(KeysOf(p)), line, p.ToHistoryEntry(), p.depth, p.positionStack, e0, d0, stack0)
      modifies p
      ensures p.Valid()
      ensures next.None? ==> OnLine(table[..], w0, PlayBy(KeysOf(p)), line, p.ToHistoryEntry(), p.depth, p.positionStack, e0, d0, stack0)
      ensures full ==> next.None? && p.depth == |p.positionStack| && Overflows(WalkOf(p))
      ensures !full && next.None? ==> Stops(table[..], WalkOf(p), PlayBy(KeysOf(p)))
      ensures next.Some? ==> !full && OnLine(table[..], w0, PlayBy(KeysOf(p)), line + [next.value], p.ToHistoryEntry(), p.depth,
                                             p.positionStack, e0, d0, stack0)
    {
      var found := Probe(p.hash);
      var legal;
      legal, full := ListHere(p, table[..], w0, line, e0, d0, stack0);
      if !full && found.Some? && found.value in legal {
        FollowMove(p, found.value, table[..], w0, line, e0, d0, stack0);
        next := found;
      } else {
        if !full && found.Some? {
          RefusedIllegal(KeysOf(p), WalkOf(p), found.value);
        }
        next := None;
      }
    }

    /** The walk of `get_pv_line`: plays the table's moves until one is missing or illegal, or the history is full. */
    method FollowLine(p: Position, ghost w0: Walk, ghost e0: HistoryEntry, ghost d0: nat, ghost stack0: seq<HistoryEntry>)
      returns (line: seq<MoveFields>, full: bool)
      requires Valid() && p.Valid()
      requires OnLine(table[..], w0, PlayBy(KeysOf(p)), [], p.ToHistoryEntry(), p.depth, p.positionStack, e0, d0, stack0)
      modifies p
      ensures p.Valid()
      ensures OnLine(table[..], w0, PlayBy(KeysOf(p)), line, p.ToHistoryEntry(), p.depth, p.positionStack, e0, d0, stack0)
      ensures full ==> p.depth == |p.positionStack| && Overflows(WalkOf(p))
      ensures !full ==> Stops(table[..], WalkOf(p), PlayBy(KeysOf(p)))
    {
      line, full := [], false;
      var going := true;
      while going
        invariant p.Valid()
        invariant OnLine(table[..], w0, PlayBy(KeysOf(p)), line, p.ToHistoryEntry(), p.depth, p.positionStack, e0, d0, stack0)
        invariant full ==> !going && p.depth == |p.positionStack| && Overflows(WalkOf(p))
        invariant !going && !full ==> Stops(table[..], WalkOf(p), PlayBy(KeysOf(p)))
        decreases |p.positionStack| - p.depth, going
      {
        var next;
        next, full := StepLine(p, w0, line, e0, d0, stack0);
        if next.Some? {
          line := line + [next.value];
        } else {
          going := false;
        }
      }
    }

    /**
     * `get_pv_line`: follows the table from the position, playing each
     * stored move while it is legal, then takes every move back.  The line
     * is the one the table leads through up to where it stops; Err where
     * the history fills up with moves still generated.
     */
    method GetPvLine(p: Position) returns (r: Result<seq<MoveFields>>)
      requires Valid() && p.Valid() && p.depth <= |p.positionStack|
      modifies p
      ensures r.Ok? ==> var e := Trail(table[..], old(WalkOf(p)), PlayBy(KeysOf(p)), r.value);
                        e.Some? && Stops(table[..], e.value, PlayBy(KeysOf(p)))
      ensures r.Err? ==> exists line | |line| == |p.positionStack| - old(p.depth) ::
                           var e := Trail(table[..], old(WalkOf(p)), PlayBy(KeysOf(p)), line);
                           e.Some? && |e.value.b| == 12 && Overflows(e.value)
      ensures Returned(p, old(p.ToHistoryEntry()), old(p.depth), old(p.positionStack))
    {
      ghost var w0, e0, d0, stack0 := WalkOf(p), p.ToHistoryEntry(), p.depth, p.positionStack;
      var line, full := FollowLine(p, w0, e0, d0, stack0);
      ghost var reached := WalkOf(p);
      UnmakeLine(p, |line|);
      if full {
        r := Err("history stack full");
        assert Trail(table[..], w0, PlayBy(KeysOf(p)), line) == Some(reached);
      } else {
        r := Ok(line);
      }
    }
  }
}
