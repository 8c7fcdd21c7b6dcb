/**
 * The `go` command's options (`search/options.rs`): a record of optional
 * limits, filled in by a scan over the command's tokens. A limit keyword
 * takes the next token as an unsigned 32-bit number; the scan panics when
 * that token is missing or is not such a number.
 */
module SearchOptionsParsing {
  import opened Wrappers
  import Fen

  datatype SearchOptions = SearchOptions(
    depth: Option<nat>,
    movetime: Option<nat>,
    infinite: bool,
    wtime: Option<nat>,
    btime: Option<nat>,
    winc: Option<nat>,
    binc: Option<nat>,
    movestogo: Option<nat>)

  /** `SearchOptions::new`: no limits and not infinite. */
  function New(): (o: SearchOptions)
    ensures o.depth.None? && o.movetime.None? && !o.infinite && o.wtime.None?
    ensures o.btime.None? && o.winc.None? && o.binc.None? && o.movestogo.None?
  {
    SearchOptions(None, None, false, None, None, None, None, None)
  }

  /** The keywords that take a numeric argument. */
  datatype Limit = Depth | Binc | Winc | Btime | Wtime | MovesToGo | MoveTime

  function Name(l: Limit): string {
    match l
    case Depth => "depth"
    case Binc => "binc"
    case Winc => "winc"
    case Btime => "btime"
    case Wtime => "wtime"
    case MovesToGo => "movestogo"
    case MoveTime => "movetime"
  }

  /** Which limit keyword a token is, if any. */
  function LimitOf(t: string): (r: Option<Limit>)
    ensures r.Some? ==> Name(r.value) == t
  {
    if t == "depth" then Some(Depth)
    else if t == "binc" then Some(Binc)
    else if t == "winc" then Some(Winc)
    else if t == "btime" then Some(Btime)
    else if t == "wtime" then Some(Wtime)
    else if t == "movestogo" then Some(MovesToGo)
    else if t == "movetime" then Some(MoveTime)
    else None
  }

  /** Every keyword is recognised as itself. */
  lemma NameRecognised(l: Limit)
    ensures LimitOf(Name(l)) == Some(l)
  {
  }

  /** Stores the value of a limit; `depth` keeps the value's low byte (`as u8`). */
  function Assign(o: SearchOptions, l: Limit, v: nat): SearchOptions
  {
    match l
    case MoveTime => o.(movetime := Some(v))
    case Depth => o.(depth := Some(v % 256))
    case Binc => o.(binc := Some(v))
    case Winc => o.(winc := Some(v))
    case Btime => o.(btime := Some(v))
    case Wtime => o.(wtime := Some(v))
    case MovesToGo => o.(movestogo := Some(v))
  }

  /**
   * One iteration of the scan, on the token at the head of `ts` and the one
   * after it: `infinite` sets the flag, a limit keyword reads its value,
   * anything else (a value already read included) is skipped.
   */
  function Step(ts: seq<string>, o: SearchOptions): (r: Result<SearchOptions>)
    requires 0 < |ts|
  {
    if ts[0] == "infinite" then Ok(o.(infinite := true))
    else if LimitOf(ts[0]).Some? then
      if |ts| < 2 then Err("index out of bounds")
      else match Fen.ParseU32(ts[1])
        case None => Err("invalid digit found in string")
        case Some(v) => Ok(Assign(o, LimitOf(ts[0]).value, v))
    else Ok(o)
  }

  /** The scan over the remaining tokens `ts`, stopping at the first panic. */
  function Scan(ts: seq<string>, o: SearchOptions): Result<SearchOptions>
    decreases |ts|
  {
    if |ts| == 0 then Ok(o)
    else match Step(ts, o)
      case Err(e) => Err(e)
      case Ok(o') => Scan(ts[1..], o')
  }

  /** `From<Vec<&str>>`: the scan of every token after the command word. */
  function Parse(tokens: seq<string>): Result<SearchOptions> {
    if |tokens| == 0 then Ok(New()) else Scan(tokens[1..], New())
  }

  /** The scan as the source runs it: a loop over the token indices from 1. */
  method FromTokens(tokens: seq<string>) returns (r: Result<SearchOptions>)
    ensures r == Parse(tokens)
  {
    var options := New();
    if |tokens| == 0 {
      return Ok(options);
    }
    var i := 1;
    while i < |tokens|
      invariant 1 <= i <= |tokens|
      invariant Parse(tokens) == Scan(tokens[i..], options)
    {
      var t := tokens[i];
      if t == "infinite" {
        options := options.(infinite := true);
      } else if LimitOf(t).Some? {
        if i + 1 >= |tokens| {
          return Err("index out of bounds");
        }
        var value := Fen.ParseU32(tokens[i + 1]);
        if value.None? {
          return Err("invalid digit found in string");
        }
        options := Assign(options, LimitOf(t).value, value.value);
      }
      assert tokens[i..][1..] == tokens[i + 1..];
      i := i + 1;
    }
    r := Ok(options);
  }

  // ---------------------------------------------------------------------
  // Properties of the scan
  // ---------------------------------------------------------------------

  /** A keyword with a printed number after it sets that limit; the number itself is then skipped. */
  lemma {:induction false} ScanPair(l: Limit, v: nat, rest: seq<string>, o: SearchOptions)
    requires v < Fen.U32_LIMIT
    ensures Scan([Name(l), Fen.NatText(v)] + rest, o) == Scan(rest, Assign(o, l, v))
  {
    var ts := [Name(l), Fen.NatText(v)] + rest;
    Fen.NatTextParses(v);
    NameRecognised(l);
    assert Step(ts, o) == Ok(Assign(o, l, v));
    var text := Fen.NatText(v);
    NumberNotKeyword(text);
    assert ts[1..] == [text] + rest;
    assert ([text] + rest)[1..] == rest;
  }

  /** A token that starts with a digit is neither `infinite` nor a limit keyword. */
  lemma NumberNotKeyword(t: string)
    requires 0 < |t| && Fen.IsDigit(t[0])
    ensures t != "infinite" && LimitOf(t).None?
  {
    assert "infinite"[0] == 'i';
    assert "depth"[0] == 'd' && "binc"[0] == 'b' && "winc"[0] == 'w' && "btime"[0] == 'b';
    assert "wtime"[0] == 'w' && "movestogo"[0] == 'm' && "movetime"[0] == 'm';
  }

  /** A limit keyword as the last token makes the scan panic. */
  lemma {:induction false} TrailingKeywordPanics(ts: seq<string>, l: Limit, o: SearchOptions)
    ensures Scan(ts + [Name(l)], o).Err?
    decreases |ts|
  {
    NameRecognised(l);
    if |ts| == 0 {
      assert Step([Name(l)], o).Err?;
    } else {
      assert (ts + [Name(l)])[1..] == ts[1..] + [Name(l)];
      match Step(ts + [Name(l)], o)
      case Err(_) =>
      case Ok(o') => TrailingKeywordPanics(ts[1..], l, o');
    }
  }

  /** A limit keyword followed by something other than a 32-bit number makes the scan panic. */
  lemma BadValuePanics(l: Limit, value: string, rest: seq<string>, o: SearchOptions)
    requires Fen.ParseU32(value).None?
    ensures Scan([Name(l), value] + rest, o).Err?
  {
    NameRecognised(l);
  }

  /** Tokens that are neither `infinite` nor a limit keyword leave the options unchanged. */
  lemma {:induction false} ScanIgnores(ts: seq<string>, o: SearchOptions)
    requires forall i | 0 <= i < |ts| :: ts[i] != "infinite" && LimitOf(ts[i]).None?
    ensures Scan(ts, o) == Ok(o)
    decreases |ts|
  {
    if |ts| > 0 {
      ScanIgnores(ts[1..], o);
    }
  }

  /** The tokens a GUI would send for a limit that is present. */
  function LimitTokens(l: Limit, v: Option<nat>): seq<string> {
    if v.Some? then [Name(l), Fen.NatText(v.value)] else []
  }

  /** The tail of a `go` command: the last three limits, then `infinite` if set. */
  function LowerTokens(o: SearchOptions): seq<string> {
    LimitTokens(Winc, o.winc) + (LimitTokens(Binc, o.binc)
      + (LimitTokens(MovesToGo, o.movestogo) + (if o.infinite then ["infinite"] else [])))
  }

  /** A well-formed `go` command for the options: every present limit, then `infinite` if set. */
  function GoTokens(o: SearchOptions): seq<string> {
    ["go"] + (LimitTokens(Depth, o.depth) + (LimitTokens(MoveTime, o.movetime)
      + (LimitTokens(Wtime, o.wtime) + (LimitTokens(Btime, o.btime) + LowerTokens(o)))))
  }

  predicate Representable(o: SearchOptions) {
    (o.depth.Some? ==> o.depth.value < 256)
    && (o.movetime.Some? ==> o.movetime.value < Fen.U32_LIMIT)
    && (o.wtime.Some? ==> o.wtime.value < Fen.U32_LIMIT)
    && (o.btime.Some? ==> o.btime.value < Fen.U32_LIMIT)
    && (o.winc.Some? ==> o.winc.value < Fen.U32_LIMIT)
    && (o.binc.Some? ==> o.binc.value < Fen.U32_LIMIT)
    && (o.movestogo.Some? ==> o.movestogo.value < Fen.U32_LIMIT)
  }

  /** Scanning the tokens of one limit stores it, whether present or not. */
  lemma ScanLimit(l: Limit, v: Option<nat>, rest: seq<string>, o: SearchOptions, o': SearchOptions)
    requires v.Some? ==> v.value < Fen.U32_LIMIT
    requires o' == (if v.Some? then Assign(o, l, v.value) else o)
    ensures Scan(LimitTokens(l, v) + rest, o) == Scan(rest, o')
  {
    if v.Some? {
      ScanPair(l, v.value, rest, o);
    } else {
      assert LimitTokens(l, v) + rest == rest;
    }
  }

  /** The scan of the tail of the command. */
  lemma ScanLowerHalf(o: SearchOptions)
    requires Representable(o)
    ensures Scan(LowerTokens(o), o.(winc := None, binc := None, movestogo := None, infinite := false)) == Ok(o)
  {
    var tail := if o.infinite then ["infinite"] else [];
    var o7 := o.(infinite := false);
    var o6 := o7.(movestogo := None);
    var o5 := o6.(binc := None);
    var t7 := LimitTokens(MovesToGo, o.movestogo) + tail;
    var t6 := LimitTokens(Binc, o.binc) + t7;
    assert Scan(tail, o7) == Ok(o) by {
      if o.infinite {
        assert Step(tail, o7) == Ok(o);
        assert tail[1..] == [];
      }
    }
    ScanLimit(MovesToGo, o.movestogo, tail, o6, o7);
    ScanLimit(Binc, o.binc, t7, o5, o6);
    ScanLimit(Winc, o.winc, t6, o5.(winc := None), o5);
  }

  /** Parsing the command built from representable options gives those options back. */
  lemma GoTokensRoundTrip(o: SearchOptions)
    requires Representable(o)
    ensures Parse(GoTokens(o)) == Ok(o)
  {
    var o4 := o.(winc := None, binc := None, movestogo := None, infinite := false);
    var o3 := o4.(btime := None);
    var o2 := o3.(wtime := None);
    var o1 := o2.(movetime := None);
    var o0 := o1.(depth := None);
    assert o0 == New();
    var t5 := LowerTokens(o);
    var t4 := LimitTokens(Btime, o.btime) + t5;
    var t3 := LimitTokens(Wtime, o.wtime) + t4;
    var t2 := LimitTokens(MoveTime, o.movetime) + t3;
    var t1 := LimitTokens(Depth, o.depth) + t2;
    assert GoTokens(o)[1..] == t1;
    ScanLowerHalf(o);
    ScanLimit(Btime, o.btime, t5, o3, o4);
    ScanLimit(Wtime, o.wtime, t4, o2, o3);
    ScanLimit(MoveTime, o.movetime, t3, o1, o2);
    ScanLimit(Depth, o.depth, t2, o0, o1);
  }

  /** `go depth 300` keeps only the low byte of the depth: the search is limited to depth 44. */
  lemma DepthWraps()
    ensures Parse(["go", "depth", "300"]) == Ok(New().(depth := Some(44)))
  {
    ScanPair(Depth, 300, [], New());
    assert Fen.NatText(300) == "300";
    assert ["go", "depth", "300"][1..] == [Name(Depth), Fen.NatText(300)] + [];
  }
}
