/**
 * The part of a position that playing moves changes and that the table
 * walks of `pv.rs` and `search/utils.rs` read: the boards, the side to
 * move, the en-passant square, the castling rights and the hash.
 */
module Walks {
  import opened Wrappers
  import opened Bits
  import Colors
  import opened Castling
  import opened Board
  import opened MoveEffects
  import opened Positions
  import opened MoveGeneration

  datatype Walk = Walk(b: seq<bv64>, turn: Colors.Color, enpassant: Option<Square>, castling: CastlingRights, hash: bv64)

  /** A position's Zobrist key tables. */
  datatype Keys = Keys(pieces: seq<seq<bv64>>, castling: seq<bv64>, enpassant: seq<bv64>, turn: bv64)

  ghost predicate WalkValid(w: Walk, k: Keys) {
    |w.b| == 12 && w.castling.rights <= 15 && KeysShape(k.pieces, k.castling, k.enpassant)
  }

  /** make_move playing f, seen on the walk: the boards, side, en passant and rights change and the hash is toggled by the move's mask. */
  ghost function Played(w: Walk, k: Keys, f: MoveFields): (r: Walk)
    requires WalkValid(w, k) && CanMake(w.b, OccupanciesOf(w.b), f, w.turn)
    ensures WalkValid(r, k)
  {
    var occ := OccupanciesOf(w.b);
    Walk(BoardsAfter(w.b, occ, f, w.turn), Colors.Not(w.turn), EnpassantAfter(f), RightsAfter(w.castling, f),
         Toggle(w.hash, HashMask(f, w.enpassant, w.castling, k.pieces, k.castling, k.enpassant, k.turn)))
  }

  /** The walk a history entry records. */
  function EntryWalk(e: HistoryEntry): Walk {
    Walk(e.bitboards, e.turn, e.enpassant, e.castling, e.hash)
  }

  /** The walk a position is at. */
  function WalkOf(p: Position): Walk
    reads p
  {
    EntryWalk(p.ToHistoryEntry())
  }

  function KeysOf(p: Position): Keys {
    Keys(p.pieceKeys, p.castlingKeys, p.enpassantKeys, p.turnKey)
  }

  /** Entries equal but for the full-move number record the same walk. */
  lemma SameButWalk(e: HistoryEntry, e0: HistoryEntry)
    requires SameBut(e, e0)
    ensures EntryWalk(e) == EntryWalk(e0)
  {
    assert e.(fullmoveNumber := 0).bitboards == e.bitboards;
    assert e0.(fullmoveNumber := 0).bitboards == e0.bitboards;
  }

  /** What make_move does with a move: refuses it, plays it, or the move is not one it may be handed. */
  datatype Outcome = Refused | Moved(next: Walk) | Unfit

  /**
   * make_move seen on the walk: a move the generator may hand it is either
   * refused (an en-passant capture that leaves the mover in check) or
   * played as Played says.
   */
  ghost function MakeOn(k: Keys, w: Walk, f: MoveFields): Outcome {
    if !WalkValid(w, k) || !CanMake(w.b, OccupanciesOf(w.b), f, w.turn) then Unfit
    else if EnpassantRefused(w.b, OccupanciesOf(w.b), f, w.turn) then Refused
    else Moved(Played(w, k, f))
  }

  /** MakeOn with the key tables fixed, as a step function. */
  ghost function MakeBy(k: Keys): (Walk, MoveFields) -> Outcome {
    (w: Walk, f: MoveFields) => MakeOn(k, w, f)
  }

  /** The outcome make gives for f on w, read outside any heap. */
  ghost function Made(make: (Walk, MoveFields) -> Outcome, w: Walk, f: MoveFields): Outcome {
    make(w, f)
  }

  /**
   * make decides every move as MakeOn does. The trigger keeps make abstract
   * wherever MakeOn itself is not mentioned.
   */
  ghost predicate Makes(make: (Walk, MoveFields) -> Outcome, k: Keys) {
    forall w: Walk, f: MoveFields {:trigger MakeOn(k, w, f)} :: Made(make, w, f) == MakeOn(k, w, f)
  }

  /** MakeBy(k) is such a step. */
  lemma MakeByMakes(k: Keys)
    ensures Makes(MakeBy(k), k)
  {
  }

  /**
   * make_move on a move it may be handed: played, the walk moves on to the
   * outcome's walk and takes a history slot; refused, nothing changes.
   */
  method MakeWalked(p: Position, f: MoveFields, ghost w: Walk, ghost make: (Walk, MoveFields) -> Outcome)
    returns (made: bool)
    requires p.Valid() && p.depth < |p.positionStack| && w == WalkOf(p)
    requires Makes(make, KeysOf(p)) && !Made(make, w, f).Unfit?
    modifies p
    ensures p.Valid() && |p.positionStack| == old(|p.positionStack|)
    ensures made <==> Made(make, w, f).Moved?
    ensures made ==> p.depth == old(p.depth) + 1 && WalkOf(p) == Made(make, w, f).next
    ensures !made ==> p.depth == old(p.depth) && WalkOf(p) == w
  {
    assert Made(make, w, f) == MakeOn(KeysOf(p), w, f);
    made := p.MakeMove(Encode(f), false);
  }
}
