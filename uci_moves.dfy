/**
 * `search/utils.rs`: finding a move by its UCI text among the generated
 * moves, and playing a list of such texts on a position.
 */
module UciMoves {
  import opened Wrappers
  import opened Bits
  import opened Board
  import opened Pieces
  import opened Moves
  import opened MoveEffects
  import opened Positions
  import opened MoveGeneration
  import opened Walks

  /**
   * The UCI text of a move read off its fields: the two square names and,
   * for a promotion, the promotion piece's lower-case letter.
   */
  function UciOf(f: MoveFields): string {
    SquareName(f.from) + SquareName(f.to) + (if f.promotion != Empty then [Lower(Char(f.promotion))] else [])
  }

  /** The engine prints a generated move, once packed, as UciOf says. */
  lemma EncodedText(f: MoveFields)
    ensures ToUci(Encode(f)) == UciOf(f)
  {
    var m := Encode(f);
    assert Fields(m) == f;
  }

  /** Whether the engine prints the move as s. */
  method PrintsAs(f: MoveFields, s: string) returns (b: bool)
    ensures b <==> UciOf(f) == s
  {
    EncodedText(f);
    b := ToUci(Encode(f)) == s;
  }

  /** Where in ms the first move whose text is s stands; None when no move of ms has that text. */
  function FirstWithText(ms: seq<MoveFields>, text: MoveFields -> string, s: string): (r: Option<nat>)
    ensures r.Some? ==> r.value < |ms| && text(ms[r.value]) == s
    ensures r.Some? ==> forall j | 0 <= j < r.value :: text(ms[j]) != s
    ensures r.None? <==> forall j | 0 <= j < |ms| :: text(ms[j]) != s
    decreases |ms|
  {
    if ms == [] then None
    else if text(ms[0]) == s then Some(0)
    else
      match FirstWithText(ms[1..], text, s)
      case None => None
      case Some(i) => Some(i + 1)
  }

  /** The first move of ms with text s is the one after a run of moves with other texts. */
  lemma FirstWithTextAt(ms: seq<MoveFields>, text: MoveFields -> string, s: string, i: nat)
    requires i < |ms| && text(ms[i]) == s && forall j | 0 <= j < i :: text(ms[j]) != s
    ensures FirstWithText(ms, text, s) == Some(i)
  {
  }

  /** The linear search of parse_move over the generated moves. */
  method FirstPrinted(moves: seq<MoveFields>, s: string) returns (r: Option<MoveFields>)
    ensures var i := FirstWithText(moves, UciOf, s);
            r == (if i.Some? then Some(moves[i.value]) else None)
  {
    var i := 0;
    while i < |moves|
      invariant 0 <= i <= |moves|
      invariant forall j | 0 <= j < i :: UciOf(moves[j]) != s
    {
      var found := PrintsAs(moves[i], s);
      if found {
        FirstWithTextAt(moves, UciOf, s, i);
        return Some(moves[i]);
      }
      i := i + 1;
    }
    return None;
  }

  /** The move parse_move finds for s in a walk's position: the first generated move printed as s. */
  ghost function Parsed(w: Walk, s: string): (r: Option<MoveFields>)
    requires |w.b| == 12
    ensures r.Some? ==> CanMake(w.b, OccupanciesOf(w.b), r.value, w.turn)
  {
    var ms := PseudoLegal(w.b, OccupanciesOf(w.b), w.turn, w.enpassant, w.castling);
    PseudoLegalCanMake(w.b, w.turn, w.enpassant, w.castling);
    var i := FirstWithText(ms, UciOf, s);
    if i.Some? then Some(ms[i.value]) else None
  }

  /**
   * `parse_move`: the first generated move whose text is s, or None when
   * no generated move has that text.
   */
  method ParseMove(p: Position, s: string) returns (r: Option<MoveFields>)
    requires p.Valid()
    ensures r == Parsed(WalkOf(p), s)
  {
    var moves := GenerateMoves(p);
    r := FirstPrinted(moves, s);
  }

  /** Parsed as a step function. */
  ghost function ParseBy(): (Walk, string) -> Option<MoveFields> {
    (w: Walk, s: string) => if |w.b| == 12 then Parsed(w, s) else None
  }

  /** The move parse finds for s in w, read outside any heap. */
  ghost function ParsedWith(parse: (Walk, string) -> Option<MoveFields>, w: Walk, s: string): Option<MoveFields> {
    parse(w, s)
  }

  /**
   * parse finds what parse_move finds. The trigger keeps parse abstract
   * wherever Parsed itself is not mentioned.
   */
  ghost predicate Parses(parse: (Walk, string) -> Option<MoveFields>) {
    forall w: Walk, s: string {:trigger Parsed(w, s)} :: |w.b| == 12 ==> ParsedWith(parse, w, s) == Parsed(w, s)
  }

  /** ParseBy() is such a function. */
  lemma ParseByParses()
    ensures Parses(ParseBy())
  {
  }

  /** parse_move, with its result stated through a function that parses as it does. */
  method ParseWalked(p: Position, s: string, ghost parse: (Walk, string) -> Option<MoveFields>) returns (r: Option<MoveFields>)
    requires p.Valid() && Parses(parse)
    ensures r == ParsedWith(parse, WalkOf(p), s)
  {
    r := ParseMove(p, s);
    assert ParsedWith(parse, WalkOf(p), s) == Parsed(WalkOf(p), s);
  }

  /** A walk with the number of history slots still free. */
  datatype Replay = Replay(w: Walk, room: nat)

  /**
   * One move text played as parse_and_make_moves plays it: nothing when no
   * generated move has the text; otherwise the move is handed to make_move,
   * which needs a free history slot (None: the engine would write past the
   * history), keeps the position when it refuses an en-passant capture, and
   * otherwise plays the move, taking a slot. (A parsed move is always one
   * make_move may be handed, so the Unfit case does not arise.)
   */
  ghost function ReplayOne(k: Keys, r: Replay, s: string): (next: Option<Replay>)
    requires WalkValid(r.w, k)
  {
    match Parsed(r.w, s)
    case None => Some(r)
    case Some(f) =>
      if r.room == 0 then None
      else
        match MakeOn(k, r.w, f)
        case Moved(w1) => Some(Replay(w1, r.room - 1))
        case Refused => Some(r)
        case Unfit => None
  }

  /** ReplayOne with the key tables fixed, as a step function. */
  ghost function ReplayBy(k: Keys): (Replay, string) -> Option<Replay> {
    (r: Replay, s: string) => if WalkValid(r.w, k) then ReplayOne(k, r, s) else None
  }

  /** The replay one makes from r on the text s, read outside any heap. */
  ghost function Step(one: (Replay, string) -> Option<Replay>, r: Replay, s: string): Option<Replay> {
    one(r, s)
  }

  /**
   * one steps as ReplayOne does from every valid walk. The trigger keeps the
   * step abstract wherever ReplayOne itself is not mentioned.
   */
  ghost predicate Replays(one: (Replay, string) -> Option<Replay>, k: Keys) {
    forall r: Replay, s: string {:trigger ReplayOne(k, r, s)} :: WalkValid(r.w, k) ==> Step(one, r, s) == ReplayOne(k, r, s)
  }

  /** ReplayBy(k) is such a step. */
  lemma ReplayByReplays(k: Keys)
    ensures Replays(ReplayBy(k), k)
  {
  }

  // The four cases of a step that replays as ReplayOne does, one lemma each.

  /** A text no generated move has is skipped. */
  lemma StepSkips(one: (Replay, string) -> Option<Replay>, parse: (Walk, string) -> Option<MoveFields>, k: Keys, r: Replay, s: string, m: Option<MoveFields>)
    requires Replays(one, k) && Parses(parse) && WalkValid(r.w, k) && m == ParsedWith(parse, r.w, s) && m.None?
    ensures Step(one, r, s) == Some(r)
  {
    assert Step(one, r, s) == ReplayOne(k, r, s);
    assert ParsedWith(parse, r.w, s) == Parsed(r.w, s);
  }

  /** A found move with no history slot free fails the replay. */
  lemma StepOverflows(one: (Replay, string) -> Option<Replay>, parse: (Walk, string) -> Option<MoveFields>, k: Keys, r: Replay, s: string, m: Option<MoveFields>)
    requires Replays(one, k) && Parses(parse) && WalkValid(r.w, k) && m == ParsedWith(parse, r.w, s) && m.Some? && r.room == 0
    ensures Step(one, r, s).None?
  {
    assert Step(one, r, s) == ReplayOne(k, r, s);
    assert ParsedWith(parse, r.w, s) == Parsed(r.w, s);
  }

  /**
   * A found move with a slot free is one make_move may be handed: refused,
   * the walk stays; played, the walk moves on and takes a slot.
   */
  lemma StepFound(one: (Replay, string) -> Option<Replay>, parse: (Walk, string) -> Option<MoveFields>,
                  make: (Walk, MoveFields) -> Outcome, k: Keys, r: Replay,
                  s: string, m: Option<MoveFields>)
    requires Replays(one, k) && Parses(parse) && Makes(make, k) && WalkValid(r.w, k)
    requires m == ParsedWith(parse, r.w, s) && m.Some? && r.room > 0
    ensures !Made(make, r.w, m.value).Unfit?
    ensures Step(one, r, s) == if Made(make, r.w, m.value).Moved? then Some(Replay(Made(make, r.w, m.value).next, r.room - 1))
                               else Some(r)
  {
    assert Step(one, r, s) == ReplayOne(k, r, s);
    assert ParsedWith(parse, r.w, s) == Parsed(r.w, s);
    assert Made(make, r.w, m.value) == MakeOn(k, r.w, m.value);
  }

  /** The texts of ss played in order from r by the step one; None once a step fails. */
  ghost function ReplayAll(one: (Replay, string) -> Option<Replay>, r: Replay, ss: seq<string>): Option<Replay>
    decreases |ss|
  {
    if ss == [] then Some(r)
    else
      match ReplayAll(one, r, ss[..|ss| - 1])
      case None => None
      case Some(e) => Step(one, e, ss[|ss| - 1])
  }

  /** Once a step fails, playing more texts cannot bring the replay back. */
  lemma {:induction false} RunOutStays(one: (Replay, string) -> Option<Replay>, r: Replay, ss: seq<string>, j: nat)
    requires j <= |ss| && ReplayAll(one, r, ss[..j]).None?
    ensures ReplayAll(one, r, ss).None?
    decreases |ss|
  {
    if j < |ss| {
      var init := ss[..|ss| - 1];
      assert init[..j] == ss[..j];
      RunOutStays(one, r, init, j);
    } else {
      assert ss[..j] == ss;
    }
  }

  /** Playing one more text extends the replay by that text, or the whole replay runs out. */
  lemma ReplayNext(one: (Replay, string) -> Option<Replay>, r: Replay, ss: seq<string>, i: nat, e: Replay)
    requires i < |ss| && ReplayAll(one, r, ss[..i]) == Some(e)
    ensures Step(one, e, ss[i]).Some? ==> ReplayAll(one, r, ss[..i + 1]) == Step(one, e, ss[i])
    ensures Step(one, e, ss[i]).None? ==> ReplayAll(one, r, ss).None?
  {
    assert ss[..i + 1][..i] == ss[..i];
    if Step(one, e, ss[i]).None? {
      RunOutStays(one, r, ss, i + 1);
    }
  }

  /** One round of parse_and_make_moves: parse the text and hand a found move to make_move. */
  method PlayText(p: Position, s: string, ghost one: (Replay, string) -> Option<Replay>,
                  ghost parse: (Walk, string) -> Option<MoveFields>, ghost make: (Walk, MoveFields) -> Outcome, ghost r: Replay)
    returns (ok: bool)
    requires p.Valid() && p.depth <= |p.positionStack|
    requires Replays(one, KeysOf(p)) && Parses(parse) && Makes(make, KeysOf(p))
    requires r == Replay(WalkOf(p), |p.positionStack| - p.depth)
    modifies p
    ensures ok <==> Step(one, r, s).Some?
    ensures ok ==> p.Valid() && p.depth <= |p.positionStack| == old(|p.positionStack|)
                   && Step(one, r, s) == Some(Replay(WalkOf(p), |p.positionStack| - p.depth))
  {
    var m := ParseWalked(p, s, parse);
    if m.None? {
      StepSkips(one, parse, KeysOf(p), r, s, m);
      return true;
    }
    if p.depth == |p.positionStack| {
      StepOverflows(one, parse, KeysOf(p), r, s, m);
      return false;
    }
    StepFound(one, parse, make, KeysOf(p), r, s, m);
    var made := MakeWalked(p, m.value, r.w, make);
    ok := true;
  }

  /** One pass of the loop of parse_and_make_moves: the replay of ss[..i] grows to ss[..i + 1], or runs out. */
  method ReplayText(p: Position, ss: seq<string>, i: nat, ghost one: (Replay, string) -> Option<Replay>,
                    ghost parse: (Walk, string) -> Option<MoveFields>, ghost make: (Walk, MoveFields) -> Outcome, ghost r0: Replay, ghost n: nat)
    returns (ok: bool)
    requires i < |ss| && p.Valid() && |p.positionStack| == n && p.depth <= n
    requires Replays(one, KeysOf(p)) && Parses(parse) && Makes(make, KeysOf(p))
    requires ReplayAll(one, r0, ss[..i]) == Some(Replay(WalkOf(p), n - p.depth))
    modifies p
    ensures ok ==> p.Valid() && |p.positionStack| == n && p.depth <= n
                   && ReplayAll(one, r0, ss[..i + 1]) == Some(Replay(WalkOf(p), n - p.depth))
    ensures !ok ==> ReplayAll(one, r0, ss).None?
  {
    ghost var e := Replay(WalkOf(p), n - p.depth);
    ReplayNext(one, r0, ss, i, e);
    ok := PlayText(p, ss[i], one, parse, make, e);
  }

  /**
   * `parse_and_make_moves`: plays the texts in order, skipping those no
   * generated move has; Err where a found move finds the history full
   * (the engine writes past it and panics).
   */
  method ParseAndMakeMoves(p: Position, ss: seq<string>) returns (r: Result<()>)
    requires p.Valid() && p.depth <= |p.positionStack|
    modifies p
    ensures var last := ReplayAll(ReplayBy(KeysOf(p)), Replay(old(WalkOf(p)), old(|p.positionStack| - p.depth)), ss);
            (r.Ok? <==> last.Some?)
            && (r.Ok? ==> p.Valid() && WalkOf(p) == last.value.w && |p.positionStack| - p.depth == last.value.room)
  {
    ghost var one, parse, make := ReplayBy(KeysOf(p)), ParseBy(), MakeBy(KeysOf(p));
    ghost var r0, n := Replay(WalkOf(p), |p.positionStack| - p.depth), |p.positionStack|;
    ReplayByReplays(KeysOf(p));
    ParseByParses();
    MakeByMakes(KeysOf(p));
    for i := 0 to |ss|
      invariant p.Valid() && |p.positionStack| == n && p.depth <= n
      invariant ReplayAll(one, r0, ss[..i]) == Some(Replay(WalkOf(p), n - p.depth))
    {
      var ok := ReplayText(p, ss, i, one, parse, make, r0, n);
      if !ok {
        return Err("history stack full");
      }
    }
    assert ss[..|ss|] == ss;
    r := Ok(());
  }
}
