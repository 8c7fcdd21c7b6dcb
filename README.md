# rusty-redtail core, modelled in Dafny

rusty-redtail is a bitboard chess engine written in Rust. This project models its core and proves properties of the model:

- **Bits and values.** 64-bit boards, squares numbered from a8 = 0 to h1 = 63, colours, pieces and the four-bit castling rights. The xorshift generator that draws the Zobrist keys.
- **The bit-packed move.** Its getters and setters. The UCI text a move prints as.
- **Attack geometry.** Leaper masks, slider rays up to the first blocker, relevance masks, the occupancy subsets behind the magic tables, and the file, rank, isolated-pawn and passed-pawn masks.
- **The position.** `make_move`/`unmake_move` against the preallocated history stack, the null move, `update_occupancies`, `update_hash`, piece lookup, attack and check tests, the tapered piece value, and FEN output and input.
- **Move generation.** Pawn, knight, slider, king and castle moves, the legality filter and perft.
- **Search bookkeeping.** The transposition and principal-variation hash tables and the triangular PV table. The time budget, the move-ordering score and the killer, history and counter-move updates. Static exchange evaluation, the pick-best step, the quiescence node, the repetition and no-move scores, and the positional evaluation terms.
- **The older `evaluation.rs` searcher.** Material plus piece-square evaluation, MVV-LVA ordering and its TT probe rules.
- **The `go` token parser and UCI move lookup.**

Bitboards are `bv64` values. Each one means the set of squares it holds (`Bits.Squares`), and most geometry is stated on those sets. Objects that the engine updates in place are Dafny classes with `modifies` frames:

- `Position`
- the two hash tables
- the triangular PV table
- the searcher's tables

Value types are datatypes:

- the move
- the castling rights
- history entries
- search options

A panic in the engine (an index out of range, an `unwrap` of a bad token, an overflowing subtraction) becomes an `Err` result, or a precondition where the engine's callers never reach it. Some tables are parameters of the members that read them:

- the Zobrist keys;
- the piece-square tables;
- the evaluation's king-attack and pawn-structure masks.

The general members assume nothing about the tables' contents beyond their sizes. Only the worked examples fix particular entries. The magic-number attack lookups are replaced by the on-the-fly ray functions they stand for.

Six places where verification showed the code does something other than its evident intent are listed under Findings. Each one is modelled twice:

- once as written, with an input that shows the discrepancy;
- once corrected, with the intended property proved.

The rest of the model uses the corrected member.

## Model

| member | source | states |
|---|---|---|
| Bits.GetBit | src/utils.rs:2-4 | the masked word is non-zero exactly when square s is on the board, and is either 0 or the single bit of s |
| Bits.TestBit | src/bitboard.rs:9-11 | true exactly when square s is on the board |
| Bits.SetBit | src/utils.rs:7-9 | square s is on the result and every other bit is unchanged |
| Bits.ClearBit | src/utils.rs:35-37 | square s is off the result and every other bit is unchanged |
| Bits.SetBitOther | src/bitboard.rs:19-21 | a square is on set_bit(b, s) iff it is s or was on b |
| Bits.ClearBitOther | src/bitboard.rs:33-35 | a square is on clear_bit(b, s) iff it is not s and was on b |
| Bits.SetBitIdempotent | src/utils.rs:7-9 | setting the same square twice is setting it once |
| Bits.ClearAfterSet | src/utils.rs:35-37 | clearing a square that set_bit just added gives back the original board |
| Bits.SetAfterClear | src/utils.rs:7-9 | setting a square that clear_bit just removed gives back the original board |
| Bits.SquaresSetBit | src/utils.rs:7-9 | the occupied squares of set_bit(b, s) are those of b plus s |
| Bits.SquaresClearBit | src/utils.rs:35-37 | the occupied squares of clear_bit(b, s) are those of b minus s |
| Bits.CountBits | src/utils.rs:12-20 | the loop returns the population count, which is zero exactly for the empty board |
| Bits.PopCountIsSize | src/utils.rs:12-20 | the population count equals the number of occupied squares |
| Bits.KernighanStep | src/utils.rs:15-18 | one step of the loop removes exactly one occupied square and makes the word smaller, so the loop ends |
| Bits.GetLsb | src/utils.rs:22-25 | at most 64; 64 exactly for the empty board; otherwise an occupied square with no occupied square below it |
| Bits.LsbIsLeast | src/bitboard.rs:23-25 | on a non-empty board get_lsb is the least occupied square |
| Bits.LsbOrNone | src/utils.rs:22-25 | get_lsb is 64 or more exactly for the empty board, and otherwise its least occupied square |
| Bits.LsbRemoved | src/utils.rs:28-32 | `b & (b - 1)` removes exactly the get_lsb square and lowers the population count by one |
| Bits.PopLsb | src/bitboard.rs:27-31 | returns the least occupied square and the board with exactly that square removed; the population count drops by one |
| Random.XorshiftNonZero | src/utils.rs:55-62 | the 13/17/5 xorshift maps a non-zero state to a non-zero state |
| Random.IterateNonZero | src/utils.rs:55-62 | any number of xorshift steps from a non-zero state stays non-zero |
| Random.PackChunk0 | src/utils.rs:65-70 | bits 0..15 of the 64-bit number are the low 16 bits of the first draw |
| Random.PackChunk1 | src/utils.rs:65-70 | bits 16..31 are the low 16 bits of the second draw |
| Random.PackChunk2 | src/utils.rs:65-70 | bits 32..47 are the low 16 bits of the third draw |
| Random.PackChunk3 | src/utils.rs:65-70 | bits 48..63 are the low 16 bits of the fourth draw |
| Random.RandomState.NextU32 | src/utils.rs:55-62 | returns one xorshift step of the old state, stores it back as the state, and a non-zero state gives a non-zero number |
| Random.RandomState.NextU64 | src/utils.rs:64-71 | advances the state four steps and packs the four draws' low 16 bits at bits 0, 16, 32 and 48 |
| Colors.Not | src/chess/color.rs:10-18 | the opposite colour differs from the colour |
| Colors.NotInvolution | src/chess/color.rs:13-17 | `!!c == c` |
| Colors.Index | src/chess/color.rs:34-40 | the index is below 2 and is 0 exactly for White |
| Colors.FromChar | src/chess/color.rs:43-50 | 'w' and 'b' parse (to White and Black respectively); every other char is an error |
| Pieces.IsSlider | src/chess/piece.rs:110-120 | a piece is a slider iff it is a bishop, rook or queen |
| Pieces.ColorExclusive | src/chess/piece.rs:44-54 | no piece is both white and black, and a piece is white or black iff it is not Empty |
| Pieces.KindExclusive | src/chess/piece.rs:37-96 | Empty has no kind and every other piece has exactly one of the six kinds |
| Pieces.Char | src/chess/piece.rs:124-140 | upper-case letters are exactly the white pieces, lower-case exactly the black ones, '.' exactly Empty |
| Pieces.FromChar | src/chess/piece.rs:154-173 | parses exactly the chars of "pnbrqkPNBRQK." (others are an error), and the parsed piece prints back as the char |
| Pieces.CharRoundTrip | src/chess/piece.rs:124-173 | parsing a piece's letter gives back the piece, Empty included |
| Pieces.Index | src/chess/piece.rs:175-193 | the index is at most 12, below 6 exactly for white pieces and in 6..11 exactly for black ones |
| Pieces.FromIndex | src/chess/piece.rs:195-214 | accepts exactly the indices up to 12 (others are an error), and the piece found has that index |
| Pieces.IndexRoundTrip | src/chess/piece.rs:175-214 | piece to index to piece is the identity on all 13 values |
| Pieces.PieceAt | src/chess/piece.rs:195-214 | the piece found for an index in range has that index |
| Pieces.PieceIterComplete | src/chess/piece.rs:218-231 | PIECE_ITER has 12 entries, lists every non-Empty piece and none twice |
| Pieces.ColorOf | src/chess/piece.rs:98-108 | a real piece's colour is White exactly when it is white |
| Castling.New | src/chess/castling_rights.rs:21-23 | grants all four rights and stays within the four bits |
| Castling.NewEmpty | src/chess/castling_rights.rs:26-28 | grants no right at all |
| Castling.RemoveRight | src/chess/castling_rights.rs:36-38 | the removed bits are clear, every other bit is kept, and the value stays within four bits |
| Castling.AddRight | src/chess/castling_rights.rs:41-43 | the added right is held afterwards, every right held before is kept, and four-bit values stay four-bit |
| Castling.RightsU8 | src/chess/castling_rights.rs:46-48 | the raw mask is non-zero exactly when some right is held |
| Castling.RightsIndex | src/chess/castling_rights.rs:15-18 | rights within the four flags index the 16 castling keys |
| Castling.ParseRights | src/chess/castling_rights.rs:51-65 | the character loop computes RightsFromString: letters add their rights, '-' stops, any other char is an error |
| Castling.ParseRightsAccepts | src/chess/castling_rights.rs:54-62 | parsing succeeds iff every char before the first '-' is one of K, Q, k, q |
| Castling.ParseRightsHolds | src/chess/castling_rights.rs:55-59 | after a successful parse a right is held iff its letter occurs before the first '-', in any order and any number of times |
| Castling.ParseRightsInRange | src/chess/castling_rights.rs:51-65 | a parsed value has no bit outside the four rights |
| Castling.AllRightsParse | src/chess/castling_rights.rs:51-65 | "KQkq" parses to all rights and "-" to none |
| Moves.PieceCode | src/chess/_move.rs:88 | `piece as u32` is at most 12 and equals the piece's index |
| Moves.PieceCodeInjective | src/chess/_move.rs:86-89 | different pieces are stored as different codes |
| Moves.FieldsDetermineMove | src/skaak/_move.rs:18-24 | the seven fields and the two unused top bits determine the whole word, so the fields do not overlap |
| Moves.FromReadExact | src/chess/_move.rs:61-63 | the unmasked `get_from` read equals the eight-bit from field exactly when the two top bits are clear, both directions |
| Moves.SetFrom | src/chess/_move.rs:108-111 | bits 22..29 hold the square and the other six fields and the top bits are unchanged |
| Moves.SetTo | src/chess/_move.rs:114-117 | bits 14..21 hold the square and every other field is unchanged |
| Moves.SetPiece | src/chess/_move.rs:120-123 | bits 10..13 hold the piece code and every other field is unchanged |
| Moves.SetCapture | src/chess/_move.rs:92-95 | bits 6..9 hold the piece code and every other field is unchanged |
| Moves.SetPromotion | src/chess/_move.rs:86-89 | bits 1..4 hold the piece code and every other field is unchanged |
| Moves.SetCastle | src/chess/_move.rs:98-100 | bit 5 is set and every other field is unchanged |
| Moves.SetEnpassant | src/chess/_move.rs:103-105 | bit 0 is set and every other field is unchanged |
| Moves.FlagsMatchPieces | src/chess/_move.rs:130-137 | is_capture holds iff get_capture is not Empty, and is_promotion iff get_promotion is not Empty |
| Moves.SetterRoundTrip | src/skaak/_move.rs:50-109 | each getter reads back what its setter wrote (from only while the top bits are clear), and set_castle/set_enpassant are observed by is_castle/is_enpassant |
| Moves.SquareSettersKeepWellFormed | src/chess/_move.rs:108-117 | writing a square below 64 keeps every field in range and the word below 2^30 |
| Moves.PieceSettersKeepWellFormed | src/chess/_move.rs:86-95 | writing a piece keeps every field in range |
| Moves.FlagSettersKeepWellFormed | src/chess/_move.rs:98-105 | setting a flag keeps every field in range |
| Moves.SetFlagsIdempotent | src/chess/_move.rs:98-105 | set_castle and set_enpassant are idempotent |
| Moves.New | src/chess/_move.rs:31-39 | the getters return from, to and piece; capture and promotion are Empty; no flag is set; the word is well formed |
| Moves.Default | src/chess/_move.rs:43-49 | squares 0, piece, capture and promotion Empty, no flag set |
| Moves.SquareName | src/chess/_move.rs:163-164 | two characters, a file letter a..h and a rank digit 1..8 (square 0 is a8) |
| Moves.SquareNameInjective | src/chess/_move.rs:163-164 | different squares have different names |
| Moves.SquareOfName | src/board.rs:303-306 | a name parses iff it is a file letter a..h followed by a rank digit 1..8, and the square parsed prints back as the name |
| Moves.SquareNameParses | src/board.rs:303-306 | every square's name parses back to the square |
| Moves.Lower | src/chess/_move.rs:166 | lower-casing yields a lower-case letter exactly for letters |
| Moves.ToUci | src/chess/_move.rs:156-171 | from then to in lower case, plus one promotion letter exactly when is_promotion holds |
| Moves.UciDetermines | src/chess/_move.rs:156-171 | two moves with the same text have the same squares, the same promotion status and the same promotion kind |
| Moves.Compare | src/chess/_move.rs:201-205 | -1, 0 or 1 as the first priority is below, equal to or above the second |
| Moves.CompareIsOrder | src/chess/_move.rs:193-211 | the comparison is antisymmetric and transitive, and does not look at the moves |
| Moves.NewPrioritized | src/chess/_move.rs:181-183 | holds the given move and priority |
| Moves.DefaultPrioritized | src/chess/_move.rs:185-190 | priority 0 and the null move |
| Attacks.PawnLeaps | src/board/attacks.rs:16-41 | the squares a pawn attacks (one rank forward, one file aside) are the up-left/up-right jumps for White and the down-left/down-right jumps for Black |
| Attacks.KnightLeaps | src/board/attacks.rs:43-75 | the knight's (1,2)/(2,1) squares are exactly the eight guarded jumps |
| Attacks.KingLeaps | src/board/attacks.rs:77-110 | the king's neighbouring squares are exactly the eight guarded jumps |
| Attacks.PawnCount | src/board/attacks.rs:16-41 | a pawn attacks at most two squares |
| Attacks.KnightCount | src/board/attacks.rs:43-75 | a knight attacks at most eight squares |
| Attacks.KingCount | src/board/attacks.rs:77-110 | a king attacks at most eight squares |
| Attacks.MaskPawnAttacks | src/board/attacks.rs:16-41 | the mask holds exactly the squares one rank forward and one file aside, never wrapping across the A/H files |
| Attacks.MaskKnightAttacks | src/board/attacks.rs:43-75 | the mask holds exactly the squares a knight's move away, never wrapping across an edge |
| Attacks.MaskKingAttacks | src/board/attacks.rs:77-110 | the mask holds exactly the other squares at distance one, never wrapping across an edge |
| Attacks.WalkSouth | src/board/attacks.rs:215-221 | the loop adds the south ray up to and including its first blocker |
| Attacks.WalkNorth | src/board/attacks.rs:223-229 | the loop adds the north ray up to and including its first blocker |
| Attacks.WalkEast | src/board/attacks.rs:231-237 | the loop adds the east ray up to and including its first blocker |
| Attacks.WalkWest | src/board/attacks.rs:239-245 | the loop adds the west ray up to and including its first blocker |
| Attacks.WalkSouthEast | src/board/attacks.rs:171-177 | the loop adds the south-east diagonal up to and including its first blocker |
| Attacks.WalkNorthWest | src/board/attacks.rs:179-188 | the loop adds the north-west diagonal up to and including its first blocker |
| Attacks.WalkSouthWest | src/board/attacks.rs:190-196 | the loop adds the south-west diagonal up to and including its first blocker |
| Attacks.WalkNorthEast | src/board/attacks.rs:198-204 | the loop adds the north-east diagonal up to and including its first blocker |
| Attacks.RookAttacksOnTheFly | src/board/attacks.rs:209-248 | the result is the union of the four orthogonal rays, each cut after its first blocker |
| Attacks.BishopAttacksOnTheFly | src/board/attacks.rs:165-207 | the result is the union of the four diagonal rays, each cut after its first blocker |
| Attacks.RelevantMembers | src/board/attacks.rs:112-163 | a square is relevant in a direction exactly when it lies on that ray and is not the ray's edge square |
| Attacks.MaskSouth | src/board/attacks.rs:146-148 | the loop adds the south ray without its edge square |
| Attacks.MaskNorth | src/board/attacks.rs:150-152 | the loop adds the file's squares from rank index 1 up to the square's own, exclusive |
| Attacks.MaskEast | src/board/attacks.rs:154-156 | the loop adds the east ray without its edge square |
| Attacks.MaskWest | src/board/attacks.rs:158-160 | the loop adds the rank's squares from file index 1 up to the square's own, exclusive |
| Attacks.MaskSouthEast | src/board/attacks.rs:118-120 | the loop adds the south-east diagonal without its edge square |
| Attacks.MaskNorthWest | src/board/attacks.rs:122-127 | the loop adds the north-west diagonal without its edge square |
| Attacks.MaskSouthWest | src/board/attacks.rs:129-131 | the loop adds the south-west diagonal without its edge square |
| Attacks.MaskNorthEast | src/board/attacks.rs:133-135 | the loop adds the north-east diagonal without its edge square |
| Attacks.MaskRookAttacks | src/board/attacks.rs:140-163 | the mask is the union of the four orthogonal relevant rays |
| Attacks.MaskBishopAttacks | src/board/attacks.rs:112-138 | the mask is the union of the four diagonal relevant rays |
| Attacks.RelevantOnRay | src/board/attacks.rs:112-163 | a relevant square is not the origin, lies on the ray, is not its edge square, and is attacked on an empty board |
| Attacks.BishopMaskInterior | src/board/attacks.rs:112-138 | the bishop mask omits its own square and every rim square, and lies within its empty-board attacks |
| Attacks.RookMaskInterior | src/board/attacks.rs:140-163 | the rook mask omits its own square, the end ranks of its file and the end files of its rank, and lies within its empty-board attacks |
| Rays.Step | src/board/attacks.rs:209-248 | one step in a direction moves the index by -8, +8, +1, -1, -7, -9, +9 or +7 |
| Rays.RayAttacks | src/board/attacks.rs:171-175 | first-blocker rule: a square is attacked along a ray iff it lies on the ray and no square strictly before it is a blocker |
| Masks.TestIsSelected | src/board/attacks.rs:314-322 | the loop's test of a square agrees with the file-else-rank selection |
| Masks.SetFileRankMask | src/board/attacks.rs:308-328 | the mask holds exactly the selected squares: those of file_num when it is not -1, else those of rank_num |
| Masks.FileMaskSquares | src/board/attacks.rs:308-328 | a file mask holds exactly the eight squares of that file |
| Masks.RankMaskSquares | src/board/attacks.rs:308-328 | a rank mask holds exactly the eight squares of that rank |
| Masks.OffBoardEmpty | src/board/attacks.rs:308-328 | a file or rank number off the board, or -1 for both, gives the empty mask |
| Masks.IsolatedFiles | src/board/attacks.rs:397-407 | the isolated mask holds the neighbouring files only; an edge file has a single neighbour |
| Masks.NearFilesMask | src/board/attacks.rs:414-416 | the three-file mask is the file and its two neighbours |
| Masks.WhitePassedPawnMask | src/board/attacks.rs:408-426 | the white passed mask holds the same and adjacent files in rows strictly above the pawn (smaller rank index) |
| Masks.BlackPassedPawnMask | src/board/attacks.rs:427-445 | the black passed mask holds the same and adjacent files in rows strictly below the pawn |
| Masks.PassedMirror | src/board/attacks.rs:408-445 | a square is in the white mask of (rank, file) iff its vertically mirrored square is in the black mask of (7 - rank, file) |
| Masks.FileMasks | src/board/attacks.rs:377-386 | entry s holds the file of s |
| Masks.RankMasks | src/board/attacks.rs:387-396 | entry s holds the rank of s |
| Masks.IsolatedPawnMasks | src/board/attacks.rs:397-407 | entry s holds the files either side of the file of s |
| Masks.WhitePassedPawnMasks | src/board/attacks.rs:408-426 | entry s is the white passed mask of its rank and file |
| Masks.BlackPassedPawnMasks | src/board/attacks.rs:427-445 | entry s is the black passed mask of its rank and file |
| Occupancy.SetOccupancy | src/board/attacks.rs:250-264 | the occupancy holds exactly the squares picked from the mask by the index bits |
| Occupancy.SetOccupancyMembers | src/board/attacks.rs:254-261 | the j-th lowest square of the mask is in the occupancy iff j is below bits_in_mask and bit j of the index is set |
| Occupancy.PickedSubset | src/board/attacks.rs:250-264 | the occupancy is a subset of the attack mask |
| Occupancy.PickedMembers | src/board/attacks.rs:254-261 | after k pops a square is picked iff it is in the remaining mask, its position j has k + j below bits_in_mask, and index bit k + j is set |
| Attacks.PawnSymmetric | src/board.rs:327-328 | a pawn of the other colour on s attacks t exactly when a pawn of the colour on t attacks s, which is why the reverse pawn lookup is exact |
| Attacks.KnightSymmetric | src/board.rs:330-331 | t is a knight's jump from s exactly when s is a knight's jump from t |
| Attacks.KingSymmetric | src/board.rs:341-342 | t neighbours s exactly when s neighbours t |
| Attacks.RookSymmetric | src/board.rs:337-339 | a rook on s reaches t through the blockers exactly when a rook on t reaches s |
| Attacks.BishopSymmetric | src/board.rs:333-335 | a bishop on s reaches t through the blockers exactly when a bishop on t reaches s |
| Rays.OnRayOpposite | src/board/attacks.rs:165-248 | t lies beyond s along a direction exactly when s lies beyond t along the opposite direction |
| Rays.ClearOpposite | src/board/attacks.rs:165-248 | the squares strictly between two squares on a ray are free of blockers whichever end the ray is read from |
| Rays.RaySymmetric | src/board/attacks.rs:165-248 | a slider on s reaches t along a direction exactly when a slider on t reaches s along the opposite direction, the first blocker included |
| Board.HeldMember | src/board.rs:677-696 | a square is held by a range of boards iff some board of the range has its bit |
| Board.OccupanciesHeld | src/board.rs:677-696 | occupancy 0 holds the squares of boards 0..5, occupancy 1 those of boards 6..11, and occupancy 2 their union |
| Board.OrRangeEmpty | src/board.rs:677-696 | the union of empty boards is empty |
| Board.OccupanciesEmpty | src/board.rs:677-696 | twelve empty boards give three empty occupancies |
| Board.FirstHolder | src/board.rs:730-742 | the board found holds the square and no earlier board of the range does; none is found iff no board of the range holds it |
| Board.PieceOn | src/board.rs:710-745 | a piece found stands on the square's board; it is white when the white occupancy has the square and black otherwise |
| Board.PieceOnOccupied | src/board.rs:710-745 | with occupancies derived from the boards, the lookup is Empty exactly on the empty squares |
| Board.PieceOnDisjoint | src/board.rs:710-745 | with derived occupancies and disjoint boards, the lookup finds the piece whose board holds the square |
| Board.SideOffset | src/board.rs:325 | the first board of a colour is 0 for White and 6 for Black |
| Board.AttackersAt | src/board.rs:319-345 | a square t is among the colour's attackers of s exactly when one of the colour's boards holds t and that piece attacks s from t: a pawn by its forward diagonals, a knight or king by its leaps, a bishop or queen along the diagonals and a rook or queen along the lines, each up to the first occupied square |
| Board.AttacksSymmetric | src/board.rs:319-345 | each piece kind attacks symmetrically between two squares (a pawn with the colours exchanged), so every reverse lookup of is_square_attacked is exact |
| Board.ReverseLookup | src/board.rs:319-345 | looking up attackers from the target (the other colour's pawn targets, the leapers' and sliders' attacks from s) finds exactly the pieces whose own attacks from their square reach s |
| Board.AttackedIff | src/board.rs:319-345 | is_square_attacked's answer is true exactly when some square holds a piece of the colour that attacks s from there |
| Board.AttackedHasAttacker | src/board.rs:319-345 | an attacked square has a piece of the colour that attacks it from its own square |
| Board.NoAttackerFound | src/board.rs:319-345 | on a square that is not attacked, no piece of the colour attacks it from its own square |
| Board.AttackTest | src/board.rs:327-344 | the or of the five masked attack sets is non-zero iff some piece of the colour attacks the square |
| Board.KingOn | src/board.rs:165-170 | a side whose one king stands on s is in check iff s is attacked by the other colour |
| Board.KingSquareCheck | src/board.rs:165-170 | is_in_check tests the get_lsb square of the king board against the other colour |
| Board.NoKingInCheck | src/board.rs:165-170 | a side with no king is in check (get_lsb gives 64) |
| Board.RookAttacker | src/board.rs:336-339 | a rook of the colour on the rook lines from s makes s attacked |
| Board.PhaseCounts | src/board.rs:352-373 | the phase score is 365 per bishop, 337 per knight, 477 per rook and 1025 per queen, both colours counted |
| Board.TruncDiv | src/board.rs:1285-1291 | Rust's i32 division: the Euclidean quotient for non-negative values, truncated toward zero for negative ones |
| Board.TruncDivBetween | src/board.rs:1285-1291 | a truncated quotient of a value within [lo*d, hi*d] lies within [lo, hi] |
| Board.BlendBetween | src/board.rs:1285-1291 | a weighted sum x*w + y*(k-w) with 0 <= w <= k lies between k*min(x,y) and k*max(x,y) |
| Board.TableSquare | src/board.rs:1278-1280 | the table index is below 64: the square for white pieces, MIRROR_SCORE of it for black pieces |
| Board.PieceValue | src/board.rs:1273-1299 | above phase 6192 the opening value (material plus table entry), below 518 the ending value, in between the truncated blend |
| Board.PieceValueTapered | src/board.rs:1285-1297 | in the middle game the value lies between the opening and ending table values, and at phase 6192 it equals the opening value |
| Board.PieceValueMirrored | src/board.rs:1278-1280 | with equal black and white tables, a black piece on the mirrored square is worth what the white piece is worth |
| Board.StackValidSave | src/board.rs:389-401 | writing a well-formed entry into a well-formed history stack keeps it well formed |
| Board.DefaultEntry | src/board.rs:70-85 | the default history entry is well formed, has empty boards and move number 1 |
| Positions.Position.constructor | src/board.rs:120-163 | a new position without a FEN has twelve empty boards, White to move, no en-passant square, all rights, clocks 0 and 1, zero material, 128 default history entries at depth 0, and the hash of those fields |
| Positions.Position.UpdateOccupancies | src/board.rs:677-696 | the three occupancies become the white, black and combined unions of the boards |
| Positions.Position.GetPieceAtSquare | src/board.rs:710-745 | the piece returned is the board lookup PieceOn, which with derived occupancies is the piece standing on the square and Empty on an empty one |
| Positions.Position.IsSquareAttackedWOccupancy | src/board.rs:319-345 | true iff a piece of the colour attacks the square with sliders blocked by the given occupancy |
| Positions.Position.IsSquareAttacked | src/board.rs:348-350 | true iff a piece of the colour attacks the square with sliders blocked by the position's own pieces |
| Positions.Position.IsInCheck | src/board.rs:165-170 | true iff the side to move is in check: its lowest king square is attacked by the other side, or it has no king |
| Positions.Position.UpdateHash | src/board.rs:617-638 | the hash becomes the xor of the keys of every piece on its square, the en-passant key, the rights key and the turn key when Black moves |
| Positions.Position.RestoreBoards | src/board.rs:600-613 | the boards, occupancies, hash and material become those of the entry |
| Positions.Position.RestoreState | src/board.rs:600-613 | the side to move, en-passant square, rights and both clocks become those of the entry |
| Positions.Position.Restore | src/board.rs:698-708 | after restoring, the position's own entry equals the entry restored |
| Positions.Position.UnmakeMove | src/board.rs:600-613 | the depth drops by one, the position becomes exactly the entry saved in that slot, the stack is untouched and a well-formed position stays well formed |
| Positions.Position.SaveEntry | src/board.rs:387-401 | slot depth of the stack receives the current position, keeping that slot's old full-move number; no other slot changes |
| Positions.Position.MovePiece | src/board.rs:403-424 | the boards are those with the mover moved from `from` to `to` and a captured piece taken off `to`; the mask is the xor of the mover's two keys, the victim's key and the old en-passant key |
| Positions.Position.Promote | src/board.rs:428-441 | a promoting pawn's board loses `to` and the promoted piece's board gains it; both keys are added to the mask |
| Positions.Position.CaptureEnpassant | src/board.rs:443-455 | when the occupancy recorded before the move has the victim square, the piece found there is removed from its board; otherwise the boards are unchanged |
| Positions.Position.MarkEnpassant | src/board.rs:468-476 | the en-passant square becomes the crossed square exactly on a double pawn push, and its key is added to the mask |
| Positions.Position.MoveKing | src/board.rs:478-566 | a castling king's rook moves from its corner to the square the king crossed, the old rights' key is toggled, and the king's colour loses both its rights |
| Positions.Position.MoveRook | src/board.rs:568-586 | a rook leaving a1, h1, a8 or h8 removes exactly that corner's right |
| Positions.Position.PawnStep | src/board.rs:428-476 | the pawn's boards are as the move-effect function says; the move is refused exactly when it is an en-passant capture that leaves the mover's king attacked, in which case the en-passant square is kept |
| Positions.Position.PieceSteps | src/board.rs:403-586 | the boards become BoardsAfter of the move; refusal is exactly EnpassantRefused; when the move is not refused, the en-passant square and rights are the move-effect functions of it |
| Positions.Position.TryPieceSteps | src/board.rs:403-586 | a refused move restores the position from slot depth, leaving the stack and depth as they were; a move that is not refused leaves the move-effect boards, rights and en-passant square |
| Positions.Position.Commit | src/board.rs:588-597 | the occupancies are derived from the new boards, the depth rises by one, the side flips, and the hash is toggled by the mask, the new rights' key and the turn key |
| Positions.Position.Play | src/board.rs:403-597 | with the position already saved, the move is made iff it is not a refused en-passant capture; a made move leaves the move-effect boards, rights and en-passant square, a flipped side, depth + 1 and the toggled hash |
| Positions.Position.MakeMove | src/board.rs:375-598 | a capture-only call with a quiet move changes nothing and returns false; otherwise slot depth receives the position; a refused en-passant capture restores it and returns false; a made move returns true with the move-effect boards, rights and en-passant square, the side flipped, depth + 1 and material unchanged; the position stays well formed |
| Positions.Position.MakeThenUnmake | src/board.rs:375-613 | make_move followed by unmake_move when the move was made gives back the position and depth, except that the full-move number is that of the slot used |
| Positions.Position.MakeNullMoveAsWritten | src/board.rs:109-117 | the current position is pushed onto the END of the stack, the depth rises by one, the side flips, the turn key is toggled and nothing else changes |
| Positions.Position.MakeNullMove | src/board.rs:109-117 | the corrected null move saves the position in slot depth (where unmake_move reads), then rises one level, flips the side and toggles the turn key |
| Positions.Position.NullMoveThenUnmake | src/board.rs:109-117 | the corrected null move followed by unmake_move restores the whole position and the depth |
| Positions.Position.NullMoveThenUnmakeAsWritten | src/board.rs:109-117 | the null move as written followed by unmake_move yields whatever slot depth held before, not the position the null move started from |
| Positions.Position.PlacementSquare | src/board.rs:177-195 | one square of the placement walk extends the text so that text written plus the rest of the walk equals the placement from this square |
| Positions.Position.PlacementText | src/board.rs:175-198 | the placement text is the FEN placement of the board cells: ranks separated by '/', runs of empty squares written as digits |
| Positions.Position.AsFen | src/board.rs:172-242 | the text is the FEN record of the position's boards, side, rights, en-passant square and clocks, which ParseFen reads back to the same fields |
| Positions.Position.PlaceFromFen | src/board.rs:262-281 | the twelve boards become the decoding of the placement field from square 0 over cleared boards |
| Positions.Position.AddMaterial | src/board.rs:283-294 | each colour's total grows by the tapered values of the pieces the occupancy lookup finds on the 64 squares |
| Positions.Position.ReadState | src/board.rs:296-312 | side, rights, en-passant square and both counters become the parses of fields two to six |
| Positions.Position.ReadBoards | src/board.rs:260-281 | the boards become the placement ParseFen reads from the record |
| Positions.Position.ReadFields | src/board.rs:296-312 | boards, side, rights, en-passant square and clocks are those ParseFen reads from the record |
| Positions.Position.Record | src/board.rs:258-316 | the fields set by a FEN record, as they stand, read back by ParseFen when the position was set from it |
| Positions.Position.ReadBoardsAndMaterial | src/board.rs:260-294 | the boards are ParseFen's, and the material is the old totals plus the values found through the occupancies as they stood before |
| Positions.Position.ReadRecord | src/board.rs:258-312 | after reading, ParseFen of the record equals the fields the position holds |
| Positions.Position.Settle | src/board.rs:314-315 | the occupancies are derived from the boards, the hash is the Zobrist hash of the fields and the position is well formed |
| Positions.Position.ReadFieldsAndSettle | src/board.rs:296-315 | the fields are ParseFen's, the hash is recomputed and the position is well formed |
| Positions.Position.CountMaterial | src/board.rs:283-294 | in the corrected order the occupancies are derived first and the material is the tapered total of the new boards' pieces |
| Positions.Position.Derive | src/board.rs:283-315 | the corrected set_fen derives occupancies, material of the new boards and the Zobrist hash, leaving the position well formed |
| Positions.Position.SetFenAsWritten | src/board.rs:258-316 | the position holds the record's fields and hash, but its material is the old material plus the values found through the OLD occupancies |
| Positions.Position.SetFen | src/board.rs:258-316 | the corrected set_fen holds the record's fields and hash, and its material is exactly the tapered total of the record's pieces |
| Positions.NullMoveCounterexample | src/board.rs:109-117 | on a new position, one null move followed by a second null move and an unmake gives White to move where Black should be |
| Positions.SetFenCounterexample | src/board.rs:283-294 | a lone white king set on a new position gets white material 0 as written and 12000 when corrected |
| Positions.LoneKingAsWritten | src/board.rs:283-294 | set_fen as written to a lone white king on a new position leaves White's material at 0 |
| Positions.LoneKingIntended | src/board.rs:283-294 | the corrected set_fen to a lone white king on a new position gives White 12000 |
| MoveEffects.Fields | src/chess/_move.rs:56-79 | the fields read from a move agree with its flags: a capture iff the captured piece is not Empty, a promotion iff the promoted piece is not Empty, castle and en-passant flags as stored |
| MoveEffects.LiftThenPlace | src/board.rs:403-412 | clearing `from` and then setting `to` on a board moves exactly that square and leaves the other boards alone |
| MoveEffects.PlaceThenLift | src/board.rs:403-412 | make_move's order, setting `to` and then clearing `from`, leaves the board's squares plus `to` minus `from` (so a move with from == to removes the piece) and the other boards alone |
| MoveEffects.MovedBoards | src/board.rs:403-424 | after the first step the mover's board gains `to` and loses `from`, a captured piece's board loses `to`, and every other board is unchanged |
| MoveEffects.CastleRookMoves | src/board.rs:480-554 | castling to c1, g1, c8 or g8 moves that side's rook from a1, h1, a8 or h8 to d1, f1, d8 or f8; any other target leaves the boards unchanged |
| MoveEffects.RightsAfterForfeits | src/board.rs:557-586 | each of the four castling rights is kept after a move exactly when it was held and the move (a king of that colour, or a rook leaving that corner) does not forfeit it; no right is ever added |
| MoveEffects.RemoveKeeps | src/chess/castling_rights.rs:36-38 | removing a mask keeps a right exactly when it was held and lies outside the mask |
| MoveEffects.EnpassantMidpoint | src/board.rs:468-476 | a move marks an en-passant square iff it is a pawn's and its distance is 16 or 17 either way, and a two-rank push marks the square it crossed |
| MoveEffects.OffsetFullRank | src/board.rs:469-470 | the engine's truncated half of a pawn's signed distance is a full rank exactly for distances 16 and 17 either way |
| Fen.NatText | src/board.rs:232-240 | a counter's text is non-empty and made of decimal digits |
| Fen.NatTextValue | src/board.rs:232-240 | the digits written for a number have that number as their value |
| Fen.ParseU32 | src/board.rs:308-312 | a counter that parses lies below 2^32 |
| Fen.NatTextParses | src/board.rs:232-240 | a 32-bit counter written by as_fen is read back by set_fen's parse as the same counter |
| Fen.Split | src/board.rs:260 | splitting on spaces always gives at least one field |
| Fen.SplitJoin | src/board.rs:260 | a field without the separator followed by the separator splits off as the first field |
| Fen.SplitNone | src/board.rs:260 | a text without the separator is a single field |
| Fen.Cells | src/board.rs:186-195 | the cells as_fen reads are 64, one per square |
| Fen.DecodeLetter | src/board.rs:279-280 | the next letter of a placement that decodes is a piece with a board, read at a square on the board (so set_bit does not panic) |
| Fen.DecodeEmpty | src/board.rs:274-277 | a digit for n empty squares moves the decoding position n squares on |
| Fen.DecodePlacementFrom | src/board.rs:268-281 | decoding the placement text written from square i on, from position i minus the pending count, places exactly the pieces from square i on |
| Fen.DecodePlacement | src/board.rs:262-281 | decoding a whole placement text onto cleared boards places every piece of its cells |
| Fen.PlaceAllSquares | src/board.rs:279 | a board after placement holds its old squares plus the squares whose piece belongs on it |
| Fen.CellNotEmpty | src/board.rs:186-190 | with occupancies derived from the boards an occupied square never shows the Empty piece |
| Fen.CellHolds | src/board.rs:186-195 | with derived occupancies and disjoint boards, square t shows board k's piece exactly when board k holds t |
| Fen.CellsHolders | src/board.rs:186-195 | with derived occupancies and disjoint boards, the squares showing board k's piece are exactly the squares of board k |
| Fen.PlacementRoundTrip | src/board.rs:175-198 | set_fen's placement loop reads back exactly the boards as_fen's placement wrote |
| Fen.PlacementNoSpace | src/board.rs:175-198 | the placement text holds no space, so it stays one field |
| Fen.SideText | src/board.rs:200-205 | the side field is one letter that reads back as the side |
| Fen.CastlingText | src/board.rs:207-223 | the castling field holds no space |
| Fen.ReadLetter | src/chess/castling_rights.rs:51-65 | reading a held right's letter in front of the rest adds that right to what the rest reads as |
| Fen.CastlingRoundTrip | src/chess/castling_rights.rs:51-65 | rights within the four flags written by as_fen are read back by the castling parser unchanged |
| Fen.EnpassantText | src/board.rs:225-230 | the en-passant field holds no space |
| Fen.ParseEnpassant | src/board.rs:303-306 | a field that reads as a square is that square's lower-case name |
| Fen.EnpassantRoundTrip | src/board.rs:225-230 | the en-passant field as written reads back as the same square or none |
| Fen.ParseFen | src/board.rs:258-316 | a record with fewer than six fields is an error; a record that reads has twelve boards, rights within the four flags and 32-bit counters |
| Fen.ParsedFields | src/board.rs:258-312 | a record that reads has its six fields each read as the result says |
| Fen.SplitFields | src/board.rs:172-242 | the written record splits back into its six fields |
| Fen.FenRoundTrip | src/board.rs:172-316 | writing a well-formed position with as_fen and reading it with set_fen gives back its boards, side, rights, en-passant square and both clocks |
| Fen.ReadFields | src/board.rs:258-312 | a record whose six fields each read reads as those fields |
| Fen.MaterialAt | src/board.rs:283-294 | a square adds two totals |
| Fen.ContributionAt | src/board.rs:283-294 | a square's contribution is nothing for an empty lookup and the piece's value on its own side otherwise |
| Fen.MaterialEmptyStep | src/board.rs:284-287 | a square the lookup finds empty leaves the totals unchanged |
| Fen.MaterialPieceStep | src/board.rs:288-293 | a square holding a piece adds its value to Black's total for boards 6 to 11 and to White's otherwise |
| Fen.MaterialAtPiece | src/board.rs:283-294 | with derived occupancies and disjoint boards, a white piece adds its value to White's total only and a black piece to Black's only |
| Fen.MaterialAtEmpty | src/board.rs:283-294 | with derived occupancies an empty square adds nothing |
| Fen.SumFromAdds | src/board.rs:283-294 | the loop adds its count to whatever totals it starts from: nothing resets them |
| Fen.SumFromFirstFixed | src/board.rs:283-294 | contributions that never add to White leave White's total as it started |
| Fen.MaterialFromStale | src/board.rs:283-294 | run with the all-zero occupancies of a fresh position, the loop never adds to White's total |
| Fen.LoneKingBits | src/board.rs:279 | the lone king record's boards hold a8 on the white king's board and nothing else |
| Fen.LoneKingShape | src/board.rs:352-373 | the lone king's boards are disjoint and have phase score 0 |
| Fen.SingleWhitePiece | src/board.rs:283-294 | boards whose only piece is a white piece on a8 are worth that piece's value to White and nothing to Black |
| Fen.LoneKingMaterial | src/board.rs:1273-1299 | counted from zero with its own occupancies, a lone white king is worth 12000 to White with all-zero tables |
| Fen.LoneKingParses | src/board.rs:258-316 | "K7/8/8/8/8/8/8/8 w - - 0 1" reads as the lone king, White to move, no rights, no en-passant square, clocks 0 and 1 |
| Fen.StartDisjoint | src/board.rs:1050-1054 | the twelve boards of the starting position hold pairwise disjoint squares |
| Fen.StartFenParses | src/board.rs:1050-1054 | the starting position's FEN record reads back as its twelve boards, White to move, all four castling rights, no en-passant square, clocks 0 and 1 |
| Fen.StartBlackPieces | src/board.rs:1055-1062 | squares 0 to 7 of the starting position show black rook, knight, bishop, queen, king, bishop, knight, rook |
| Fen.StartBlackPawns | src/board.rs:1063-1070 | squares 8 to 15 of the starting position show black pawns |
| Fen.StartWhitePieces | src/board.rs:1071-1080 | squares 48 to 55 show white pawns, square 56 a white rook and square 57 a white knight |
| Evaluation.MirrorScore | src/evaluation.rs:57-122 | MIRROR_SCORE maps a square to the square on the same file with its rank flipped |
| Evaluation.MirrorInvolution | src/evaluation.rs:57-122 | mirroring a square twice gives it back |
| Evaluation.Swap | src/evaluation.rs:652-684 | the colour swap that pairs each black piece's score with the white piece of the same kind turns white into black and back, Empty into Empty, moving the board index by six |
| Evaluation.SwapInvolution | src/evaluation.rs:652-684 | swapping a piece's colour twice gives it back |
| Evaluation.GetPieceValue | src/evaluation.rs:619-685 | a white piece is worth its base value plus its table entry on the square, a black piece minus the value of the white piece of its kind on the mirrored square, and Empty nothing |
| Evaluation.PieceValueMirror | src/evaluation.rs:619-685 | swapping a piece's colour and mirroring its square negates its value |
| Evaluation.SquaresValueAny | src/evaluation.rs:693-698 | the sum of a piece's values over a set of squares does not depend on which square is popped first |
| Evaluation.Evaluate | src/evaluation.rs:688-709 | the score is the sum of the values of every piece on every board, negated when Black is to move |
| Evaluation.ScoreAntisymmetric | src/evaluation.rs:704-708 | the same boards score the opposite for Black to move as for White |
| Evaluation.Flip | src/evaluation.rs:57-122 | flipping a square's rank as a bit-vector agrees with MIRROR_SCORE |
| Evaluation.FlipTwice | src/evaluation.rs:57-122 | flipping a square twice gives it back |
| Evaluation.FlipSetRemove | src/evaluation.rs:57-122 | flipping a set with one square removed is flipping the set with the flipped square removed |
| Evaluation.SquaresValueFlip | src/evaluation.rs:619-685 | the other colour's piece on the flipped squares is worth minus as much |
| Evaluation.MirroredBoardsCancel | src/evaluation.rs:688-709 | when each black board is its white board with ranks flipped, the black boards' sum cancels the white boards' sum |
| Evaluation.MirroredScoresZero | src/evaluation.rs:748-756 | a position whose black pieces mirror its white pieces (the start position, or after 1. e4 e5) scores 0 for either side to move |
| Evaluation.BoardsValueChange | src/evaluation.rs:688-709 | changing one board changes the material sum through that board only |
| Evaluation.RemovePieceScore | src/evaluation.rs:751-764 | taking a piece off a square lowers White's score by that piece's value there |
| Evaluation.MovePieceScore | src/evaluation.rs:766-779 | moving a piece to an empty square changes White's score by the difference of its two values |
| Evaluation.TestPawnValues | src/evaluation.rs:751-755 | the a2, b2 and c2 pawns of the test positions are worth 100 each, so removing one or three gives -100 and -300 |
| Evaluation.TestRookBishopValues | src/evaluation.rs:757-764 | the a1 rook is worth 500, the h8 rook -500 and the c1 bishop 340, the test's -500, 500 and -340 |
| Evaluation.TestPawnPush | src/evaluation.rs:766-767 | e2-e4 gains 30 for White |
| Evaluation.TestKnightMove | src/evaluation.rs:775-776 | Ng1-f3 gains 30 for White |
| Evaluation.TestBlackPawnPush | src/evaluation.rs:769-770 | e7-e5 gains 30 for Black, the mirror of e2-e4 |
| Evaluation.MvvLvaMinorRows | src/evaluation.rs:42-55 | the rows of the white pawn, knight and bishop attackers follow the MVV-LVA formula |
| Evaluation.MvvLvaMajorRows | src/evaluation.rs:42-55 | the rows of the white rook, queen and king attackers follow the formula |
| Evaluation.MvvLvaBlackMinorRows | src/evaluation.rs:42-55 | the rows of the black pawn, knight and bishop attackers repeat the white rows |
| Evaluation.MvvLvaBlackMajorRows | src/evaluation.rs:42-55 | the rows of the black rook, queen and king attackers repeat the white rows |
| Evaluation.MvvLvaFormula | src/evaluation.rs:42-55 | every entry is a hundred times the victim's rank plus five minus the attacker's rank, colours ignored |
| Evaluation.MvvLvaOrders | src/evaluation.rs:42-55 | a more valuable victim scores higher whatever the attacker, and for the same victim a cheaper attacker scores higher |
| Evaluation.MvvLvaScore | src/evaluation.rs:586-609 | the principal-variation move scores 20000 when following the line, a capture its MVV-LVA entry, a quiet killer 9000, and any other quiet move its history entry |
| Evaluation.Insert | src/evaluation.rs:611-617 | inserting keeps every element and adds the new one |
| Evaluation.InsertSorted | src/evaluation.rs:611-617 | inserting into a list sorted by descending score keeps it sorted |
| Evaluation.SortDown | src/evaluation.rs:611-617 | the sort is a permutation of its input |
| Evaluation.SortDownSorted | src/evaluation.rs:611-617 | the sort's result is in descending score order |
| Evaluation.OrderMoves | src/evaluation.rs:611-617 | the moves come out in descending get_move_mvv_lva score order, each with its score, as a permutation of the input |
| Evaluation.ScoreMoves | src/evaluation.rs:612-614 | every move is paired, in the given order, with the get_move_mvv_lva value the sort compares it by |
| Evaluation.MovesOfPermutation | src/evaluation.rs:611-617 | permuting a scored list permutes its moves |
| Evaluation.ProbeBounds | src/evaluation.rs:369-388 | a probe answers only from an entry under the hash searched at least as deep, and for an entry keyed by the hash it answers as the transposition table's probe does |
| Evaluation.InsertThenProbe | src/evaluation.rs:394-405 | an entry inserted under a hash answers every later probe of that hash at a lower or equal depth: exact values always, an alpha bound at or below alpha as alpha, a beta bound at or above beta as beta |
| Evaluation.InsertKeepsOthers | src/evaluation.rs:394-405 | an insert leaves the answers for every other hash unchanged |
| MoveGeneration.ForEachMember | src/movegen.rs:264-281 | a walk popping the lowest square lists a move exactly when some square of the set contributes it |
| MoveGeneration.ForEachSingles | src/movegen.rs:268-278 | squares that each contribute one move give as many moves as squares |
| MoveGeneration.ForEachPop | src/movegen.rs:264-281 | one pop of the lowest square moves that square's moves to the output and leaves the walk of the rest |
| MoveGeneration.KindOffset | src/movegen.rs:255-259 | a kind's board lies in positions 1 to 5 of its colour's six boards |
| MoveGeneration.AttacksFrom | src/movegen.rs:266 | the attack mask of a knight, bishop, rook, queen or king on a square holds exactly the squares it reaches, sliders stopping at the first blocker of the occupancy |
| MoveGeneration.KindPiece | src/movegen.rs:255-259 | the piece of a kind and colour is on board colour offset plus kind offset |
| MoveGeneration.TargetMoves | src/movegen.rs:268-278 | the inner loop lists one move of the piece from the source to each target, lowest target first, taking whatever stands there |
| MoveGeneration.AttacksNotFriendly | src/movegen.rs:266 | the targets are the attacked squares the own side does not hold |
| MoveGeneration.GenerateKindMoves | src/movegen.rs:252-418 | the knight, bishop, rook, queen and king-step generators list exactly KindMoves: for each own piece of the kind, lowest square first, its moves to attacked squares not held by its own side |
| MoveGeneration.PawnOf | src/movegen.rs:129-134 | the side's pawn is a pawn on the side's first board |
| MoveGeneration.PromotionPieces | src/movegen.rs:149-162 | a pawn promotes to four pieces, none of them Empty |
| MoveGeneration.Promotions | src/movegen.rs:149-162 | the four promotion moves go from and to the same squares with queen, rook, bishop and knight in that order |
| MoveGeneration.PushList | src/movegen.rs:142-176 | pushes exist iff the square ahead is empty; from the promotion rank they are the four promotions; otherwise no promotion; the double push is listed iff the pawn is on its home rank and both squares ahead are empty |
| MoveGeneration.CaptureMoves | src/movegen.rs:179-205 | the capture loop lists the captures on the attacked enemy squares, lowest target first |
| MoveGeneration.SingleAt | src/movegen.rs:212-214 | one square of the en-passant mask is set iff the pawn attacks it and it is the en-passant square |
| MoveGeneration.EnpassantHit | src/movegen.rs:212-216 | the en-passant mask is non-zero iff the pawn attacks the en-passant square, and then holds that square alone |
| MoveGeneration.LsbOfSingle | src/movegen.rs:217 | the lowest bit of a mask holding one square is that square |
| MoveGeneration.EnpassantMovesOf | src/movegen.rs:208-226 | the en-passant part lists the flagged capture onto the en-passant square exactly when the pawn attacks it |
| MoveGeneration.PawnMovesFrom | src/movegen.rs:135-232 | one pawn's moves are its pushes, then its captures lowest target first, then its en-passant capture |
| MoveGeneration.GeneratePawnMoves | src/movegen.rs:26-250 | the pawn generator of the side to move lists PawnMoves: the moves of every pawn off the last rank, lowest square first |
| MoveGeneration.KindMovesMembers | src/movegen.rs:252-418 | a move is listed for a kind iff it goes from a square holding the side's piece of that kind to a square that piece attacks and its own side does not hold, taking whatever stands there |
| MoveGeneration.FromSquareMembers | src/movegen.rs:264-281 | the moves of the piece on one square go from that square to its destinations |
| MoveGeneration.KindMovesSound | src/movegen.rs:271-276 | with occupancies that agree with the boards a piece move is unflagged, never lands on its own side, and captures iff its target is occupied |
| MoveGeneration.PawnMovesAtMembers | src/movegen.rs:142-226 | a pawn's moves are exactly its pushes, its captures on attacked enemy squares, and its en-passant capture |
| MoveGeneration.PawnMoveKinds | src/movegen.rs:142-226 | every pawn move starts on the pawn; an en-passant move lands on the attacked en-passant square; any other move is a push onto an empty square one or two ranks ahead or a capture of the piece on an attacked enemy square; it promotes iff the pawn stands on its promotion rank |
| MoveGeneration.PushKinds | src/movegen.rs:142-176 | a push captures nothing, lands on an empty square one or two ranks ahead, and promotes iff from the promotion rank |
| MoveGeneration.CaptureKinds | src/movegen.rs:179-205 | a capture takes the piece found on its target and promotes iff from the promotion rank |
| MoveGeneration.PawnCaptureTakesPiece | src/movegen.rs:179-205 | with occupancies that agree with the boards, a pawn capture target holds a piece |
| MoveGeneration.EnpassantGenerated | src/movegen.rs:208-226 | a pawn has an en-passant move iff there is an en-passant square and the pawn attacks it |
| MoveGeneration.PawnMovesMembers | src/movegen.rs:129-235 | the pawn moves are exactly the moves of the side's pawns off the last rank |
| MoveGeneration.TryCastle | src/movegen.rs:426-445 | one castle is listed as CastleTo says, testing emptiness, right and attacks in the engine's order |
| MoveGeneration.GenerateCastleMoves | src/movegen.rs:423-501 | the castles of the side to move, king side first, then queen side |
| MoveGeneration.CastleToMember | src/movegen.rs:426-445 | one castle's list holds its move exactly when that castle is allowed |
| MoveGeneration.CastleOffered | src/movegen.rs:423-501 | a castle is offered iff its right is held, the square the king passes and its target are empty, and neither the king's square nor the passed square is attacked by the opponent |
| MoveGeneration.CastleMovesShape | src/movegen.rs:423-501 | every castle offered is one of the side's two castles, flagged, by the king from its home square, capturing nothing |
| MoveGeneration.GenerateKingMoves | src/movegen.rs:389-421 | the king's steps followed by the castles |
| MoveGeneration.GenerateMoves | src/movegen.rs:503-514 | the generated moves are pawns, knights, bishops, rooks, queens, king steps and castles concatenated in that order |
| MoveGeneration.Encode | src/chess/_move.rs:31-123 | a generated move packed with the setters is well formed and reads back as the same seven fields |
| MoveGeneration.CaptureHolds | src/chess/_move.rs:92-95 | setting the capture keeps the other fields and reads back as the captured piece |
| MoveGeneration.PromotionHolds | src/chess/_move.rs:86-89 | setting the promotion keeps the other fields and reads back as the promoted piece |
| MoveGeneration.CastleHolds | src/chess/_move.rs:98-100 | setting the castle flag keeps the other fields |
| MoveGeneration.EnpassantHolds | src/chess/_move.rs:103-105 | setting the en-passant flag keeps the other fields |
| MoveGeneration.InRange | src/board.rs:468-476 | every move's en-passant square computation stays on the board |
| MoveGeneration.FirstHolderAgrees | src/board.rs:730-742 | boards that agree on a square report the same first holder of it |
| MoveGeneration.MovedElsewhere | src/board.rs:403-412 | a quiet step leaves every board as it was on squares other than its two ends |
| MoveGeneration.VictimOffPath | src/board.rs:445 | the pawn an en-passant capture removes stands on neither end of the capturing move |
| MoveGeneration.EnpassantVictimFound | src/board.rs:447-455 | make_move finds a piece on the en-passant victim's square whenever the occupancy has it |
| MoveGeneration.GeneratedCanMake | src/movegen.rs:503-514 | every generated move, with occupancies that agree with the boards, moves a piece and meets make_move's indexing precondition |
| MoveGeneration.PseudoLegalCanMake | src/movegen.rs:503-514 | with occupancies derived from the boards every generated move can be given to make_move |
| MoveGeneration.KingUnattacked | src/board.rs:319-345 | a side whose pieces are a lone king off the king targets of a square does not attack it |
| MoveGeneration.KingWalksIntoRook | src/movegen.rs:516-529 | with the white king on e1, a black rook on a2 and the black king on e8, the king's step to e2 is kept by the filter as written although it leaves the white king attacked |
| MoveGeneration.LegalAmongMembers | src/movegen.rs:516-529 | the filter keeps exactly the moves of its input after which the mover is not in check |
| MoveGeneration.LegalMovesMembers | src/movegen.rs:516-529 | a move is listed as legal iff it is generated and leaves the mover out of check |
| MoveGeneration.LegalIsMade | src/board.rs:443-465 | a legal move is one make_move does not refuse |
| MoveGeneration.SideInCheck | src/board.rs:165-170 | true iff the given side's lowest king square is attacked by the other side, or it has no king |
| MoveGeneration.MakeGenerated | src/board.rs:375-598 | make_move on a generated move writes only its history slot, plays it iff it is not a refused en-passant capture, and then leaves the move-effect boards, rights and en-passant square with the side flipped |
| MoveGeneration.TryLegal | src/movegen.rs:519-526 | one round of the corrected filter judges the move legal exactly as Legal does and hands back the position |
| MoveGeneration.JudgeAndUndo | src/movegen.rs:522-525 | after make_move played the move, the mover is asked about and the move is taken back, restoring the position but for the full-move number |
| MoveGeneration.TryAt | src/movegen.rs:519-526 | move i is tried and the position comes back with the verdict Legal |
| MoveGeneration.FlagsStep | src/movegen.rs:519-526 | recording a verdict extends the flags and the selection by one |
| MoveGeneration.FilterStep | src/movegen.rs:519-526 | one iteration records move i's verdict and keeps the selection equal to the flagged moves |
| MoveGeneration.SelectLegal | src/movegen.rs:516-529 | selecting by correct flags is the legality filter |
| MoveGeneration.FilterLegal | src/movegen.rs:516-529 | the loop returns the legal moves of the list in order and hands back the position |
| MoveGeneration.GenerateLegalMoves | src/movegen.rs:516-529 | the corrected generate_legal_moves returns the generated moves after which the mover is not in check, in generation order, and hands back the position |
| MoveGeneration.PerftCountUnfold | src/movegen.rs:531-547 | above depth 0 the count is the sum of the counts below the generated moves |
| MoveGeneration.PerftOfUnfold | src/movegen.rs:538-545 | a move make_move refuses counts 0, any other the count one ply shallower below the position it reaches |
| MoveGeneration.PerftOfMade | src/movegen.rs:538-545 | what make_move reached for a move determines its count: 0 when make_move refused it, otherwise the count one ply shallower below the position it reached |
| MoveGeneration.PerftSumOnePly | src/movegen.rs:538-545 | one ply deep every move counts at most once, and exactly once when none is an en-passant capture |
| MoveGeneration.PerftOnePly | src/movegen.rs:531-547 | perft(1) is at most the number of generated moves, and equal to it when none is an en-passant capture |
| MoveGeneration.CountsStep | src/movegen.rs:538-545 | recording the count below move i extends the counts and their total |
| MoveGeneration.CountsTotal | src/movegen.rs:538-545 | the total of correct counts is the perft sum |
| MoveGeneration.Perft | src/movegen.rs:531-547 | perft returns PerftCount of the position and hands the position back, with the history below its depth untouched |
| MoveGeneration.PerftLoop | src/movegen.rs:535-546 | the loop returns the sum of the counts below the generated moves and hands back the position |
| MoveGeneration.PerftStep | src/movegen.rs:538-545 | one iteration adds the count below move i and hands back the position |
| MoveGeneration.TryPerftAt | src/movegen.rs:538-545 | move i is made, counted below and taken back, giving PerftOf of it |
| MoveGeneration.TryPerft | src/movegen.rs:539-544 | make_move, perft one ply shallower when it was played, and unmake_move give PerftOf the move and hand back the position |
| MoveGeneration.CountAndUndo | src/movegen.rs:543-544 | after make_move played a move, perft one ply shallower and unmake_move count below it and hand back the position |
| Searching.MvvLva | src/search/constants.rs:6-19 | a capture's _MVV_LVA entry is a hundred times the victim's rank plus five minus the attacker's rank, between 100 and 605 |
| Searching.KillersAfter | src/search/evaluate.rs:625-630 | after a quiet cutoff the cutting move is the first killer, and the second is the old first unless the cutting move already was the first |
| Searching.KillersStaySound | src/search/evaluate.rs:625-630 | a cutoff never makes the two killers of a ply equal (unless both are still empty) |
| Searching.QuietCount | src/search/evaluate.rs:637-644 | the quiet moves counted are among the moves given |
| Searching.MalusCounts | src/search/evaluate.rs:637-644 | the malus loop takes the amount from a history cell once for each quiet move tried before the cutoff that moves that piece to that square |
| Searching.NoMoveScore | src/search/evaluate.rs:679-685 | with no legal move the side in check scores -49000 plus the ply, and a stalemated side 0 |
| Searching.MateScoresOrder | src/search/evaluate.rs:679-685 | being mated sooner scores lower, and every mate within the ply cap scores below a stalemate |
| Searching.Occurrences | src/search/evaluate.rs:359-364 | a hash occurs at most as often as the line is long |
| Searching.OccurrencesAppend | src/search/evaluate.rs:359-364 | occurrences in a concatenated line add up |
| Searching.OccursOnce | src/search/evaluate.rs:359-364 | the line's count of a hash is positive exactly when the hash is on the line |
| Searching.RepetitionSeenTwice | src/search/evaluate.rs:359-367 | negamax scores a repetition (-15) exactly when two distinct plies of the current line hold the position's hash |
| Searching.RepeatedTwice | src/search/evaluate.rs:359-367 | a position pushed onto the line twice is scored -15 wherever it recurs |
| Searching.FirstBest | src/search/evaluate.rs:486-491 | the scan settles on a position at or after idx holding a highest score, with every earlier position of the range scoring strictly lower |
| Searching.SwapAt | src/search/evaluate.rs:492 | the swap exchanges the two entries and leaves the others |
| Searching.PickedIsBest | src/search/evaluate.rs:486-492 | after a pick-best step the list is a permutation of what it was, the positions before idx are untouched, and position idx holds the highest score of the rest |
| Searching.PickBest | src/search/evaluate.rs:486-492 | the array becomes the old list with position idx swapped with the first highest-scored position at or after it |
| Searching.Evaluator.constructor | src/search/evaluate.rs:111-147 | a new evaluator has empty killer and counter-move tables, zero history, an empty repetition line at ply 0, default options and zero time limits |
| Searching.Evaluator.SetMoveTime | src/search/evaluate.rs:163-192 | the soft and hard limits become the corrected budget for the side to move, and nothing else changes |
| Searching.Evaluator.MoveScore | src/search/evaluate.rs:893-942 | the transposition-table move scores 10000000, a capture that does not lose material 1000000 plus its MVV-LVA entry, a promotion 900000, the killers 800001 and 800000, the counter move 700000, other quiet moves their history value, and a losing capture -1000000 plus its MVV-LVA entry |
| Searching.Evaluator.RankOrdersScores | src/search/evaluate.rs:893-942 | while every history value lies strictly between a losing capture's and a counter move's score, a move in a better band always scores higher |
| Searching.Evaluator.RecordCutoff | src/search/evaluate.rs:615-647 | after a quiet cutoff the killers of the ply shift and the history cells change by the bonus and malus; after any cutoff the move becomes the counter move to its own squares; nothing else changes |
| Searching.Evaluator.UpdateHistory | src/search/evaluate.rs:633-644 | each history cell changes by depth squared for the cutting move and minus depth squared for each quiet move tried before it |
| Searching.Evaluator.ScoreMoves | src/search/evaluate.rs:875-890 | the scored list holds each move, in order, with its get_move_score |
| Searching.Evaluator.Quiescence | src/search/evaluate.rs:692-787 | the moves are only permuted; at the ply cap the static score is returned; a static score at or above beta returns beta; a position no capture can rescue returns alpha; otherwise, unless stopped for time (which returns 0), the result lies between max(alpha, static score) and beta |
| PositionalEvaluation.SumOverAny | src/search/evaluate.rs:1079-1102 | the sum of a term over a set of squares does not depend on which square is popped first |
| PositionalEvaluation.PairBonus | src/search/evaluate.rs:1064-1065 | a side's bonus is 30 exactly when it has two bishops or more, else 0 |
| PositionalEvaluation.BishopPair | src/search/evaluate.rs:1058-1072 | the term is 30, -30 or 0: 30 exactly when the side to move has the pair and the opponent not, -30 exactly when the opponent has it and the side to move not |
| PositionalEvaluation.BishopPairFlips | src/search/evaluate.rs:1067-1071 | the bishop-pair term changes sign with the side to move |
| PositionalEvaluation.SidePawns | src/search/evaluate.rs:1078-1102 | one side's pawn loop returns the sum over its pawns of the doubled penalty (-15 per pawn on a file holding more than one), the isolated penalty (-15) and the passed bonus of its rank |
| PositionalEvaluation.PawnScore | src/search/evaluate.rs:1081-1101 | the loop body for one pawn adds exactly that pawn's three terms |
| PositionalEvaluation.Doubled | src/search/evaluate.rs:1081-1087 | the doubled-pawn step is -15 times the number of own pawns on the file when there are more than one, else 0 |
| PositionalEvaluation.PawnStructure | src/search/evaluate.rs:1074-1135 | the pawn-structure term is the side to move's pawn score minus the opponent's |
| PositionalEvaluation.NoPawnsNoScore | src/search/evaluate.rs:1074-1135 | without pawns the pawn-structure term is 0 |
| PositionalEvaluation.RookTermValues | src/search/evaluate.rs:1145-1160 | a rook scores 0, 10 (no own pawn on its file) or 30 (no pawn at all on its file): an open file is also semi-open |
| PositionalEvaluation.UnionFree | src/search/evaluate.rs:1154-1158 | a file free of both sides' pawns is free of each side's pawns |
| PositionalEvaluation.SideRooks | src/search/evaluate.rs:1141-1161 | one side's rook loop returns the sum of its rooks' open-file scores |
| PositionalEvaluation.OpenFiles | src/search/evaluate.rs:1137-1190 | the open-file term is the side to move's rook score minus the opponent's |
| PositionalEvaluation.Shield | src/search/evaluate.rs:1198-1210 | a side without a king scores 0; otherwise 6 per own pawn on a king target of its lowest king square |
| PositionalEvaluation.KingSafetyInverted | src/search/evaluate.rs:1212-1214 | for either side to move, the king-safety term as written is the negation of the corrected term |
| PositionalEvaluation.KingSafety | src/search/evaluate.rs:1192-1215 | the corrected term is the side to move's shield minus the opponent's, like the other terms |
| PositionalEvaluation.ShieldCountsAgainstMover | src/search/evaluate.rs:1192-1215 | with White to move, the white king on g1 behind pawns on f2, g2 and h2, and a lone black king on a8, the term as written is -18 and the corrected one 18 |
| PositionalEvaluation.Evaluate | src/search/evaluate.rs:1046-1055 | the evaluation is the side to move's material minus the opponent's plus the pawn-structure, open-file, corrected king-safety and bishop-pair terms |
| PositionalEvaluation.ScoreFlips | src/search/evaluate.rs:1046-1055 | the evaluation is zero-sum: the same position scores the opposite for the other side to move |
| TriangularPv.PVTable.Line | src/search/evaluate.rs:31-37 | the line stored for ply p has length[p] moves and never more than MAX_PLY - p |
| TriangularPv.PVTable.constructor | src/search/evaluate.rs:40-45 | a new table is well formed and every ply's line is empty |
| TriangularPv.PVTable.ClearAt | src/search/evaluate.rs:47-52 | below MAX_PLY the line of that ply becomes empty and every other length and every cell is unchanged; a ply beyond the table changes nothing |
| TriangularPv.PVTable.Update | src/search/evaluate.rs:54-73 | the line at ply becomes the new move followed by the old line of the next ply (just the move at the last ply); other lengths and the other rows' cells are unchanged, the table stays well formed, and a ply beyond the table changes nothing |
| TriangularPv.PVTable.CopyChild | src/search/evaluate.rs:62-67 | cells 1..childLen of row ply take cells 0..childLen-1 of row ply+1; every other cell is unchanged |
| TriangularPv.PVTable.GetPv | src/search/evaluate.rs:75-79 | the principal variation is the line of ply 0, at most MAX_PLY moves |
| TimeManagement.MovesToGo | src/search/evaluate.rs:184 | the clock is spread over movestogo moves, 25 when it is absent, and never fewer than 1 |
| TimeManagement.Budget | src/search/evaluate.rs:163-192 | a fixed movetime is both limits; infinite or ponder search gets u32::MAX for both; otherwise both limits lie between 1 and a third of the side's clock (1 when the clock is under 3 ms) and the soft limit never exceeds the hard one |
| TimeManagement.BudgetOptimum | src/search/evaluate.rs:184-191 | the soft limit is the per-move share (clock over moves to go plus half the increment) capped at a third of the clock and raised to 1; the hard limit is the same with three times the share |
| TimeManagement.BudgetDefaultMoves | src/search/evaluate.rs:184 | an absent movestogo budgets exactly as movestogo 25, and movestogo 0 exactly as movestogo 1 |
| TimeManagement.BudgetAsWritten | src/search/evaluate.rs:163-192 | the release-build arithmetic, with the share and its triple wrapped to 32 bits: same movetime and infinite cases, and each limit still between 1 and a third of the clock, but no longer ordered |
| TimeManagement.AsWrittenAgrees | src/search/evaluate.rs:185-191 | whenever three times the share fits in 32 bits the release build computes the exact budget |
| TimeManagement.BudgetWraps | src/search/evaluate.rs:191 | with 1431655766 ms on White's clock and one move to go the release build gives a soft limit of 477218588 ms and a hard limit of 2 ms, where the exact budget is 477218588 ms for both |
| StaticExchange.SeeValue | src/search/constants.rs:48-53 | the exchange value of every piece lies between 0 (the empty square) and 20000 (a king) |
| StaticExchange.CapturingSideNext | src/search/evaluate.rs:810-851 | the side to capture alternates from one capture to the next |
| StaticExchange.LeastKindIsLeast | src/search/evaluate.rs:831-839 | the kind the scan finds has a piece among the attackers, and no cheaper kind of that side has one |
| StaticExchange.LeastValuableAttacker | src/search/evaluate.rs:826-839 | no attacker is found exactly when the side has no piece among the attackers; otherwise the attacker is the side's cheapest kind with one, on the lowest such square |
| StaticExchange.AlternatingAppend | src/search/evaluate.rs:827-851 | a recapture by the side whose turn it is keeps the capture sequence alternating |
| StaticExchange.GainsRecord | src/search/evaluate.rs:818-819 | recording the next speculative gain keeps every recorded gain equal to the capturer's value less the previous gain |
| StaticExchange.GainsMoreCapturers | src/search/evaluate.rs:831-839 | finding a further capturer leaves the recorded gains consistent with the longer capture sequence |
| StaticExchange.Exchange | src/search/evaluate.rs:793-852 | the recorded gains start at the victim's value and each is the capturer's value less the gain before it; the capturers are the moving piece followed by the board's own line of recaptures, each the capturing side's least valuable attacker among `attackers_to(occ) & occ` once every earlier capturer has left `occ`, cut at the first stand-pat test or where the line ends (`PlayedOut`); with nothing to recapture the exchange stops after the first capture |
| StaticExchange.Round | src/search/evaluate.rs:811-851 | one pass of the loop advances the index by one and either stops at one of its three breaks with every gain recorded and the capturers a prefix of the board's line of recaptures, or goes on with the next capturer the side's least valuable attacker on the occupancy its predecessor vacated |
| StaticExchange.RecapturesStep | src/search/evaluate.rs:826-851 | the board's line of recaptures ends where the side to capture has no attacker left, and otherwise starts with that side's least valuable attacker and continues from the occupancy without it, the other side to capture |
| StaticExchange.NoRecaptureLine | src/search/evaluate.rs:802-843 | when the opponent has no attacker once the moving piece has left its square, the board's line of recaptures is empty |
| StaticExchange.PlayedOutUnique | src/search/evaluate.rs:810-851 | the board and the move decide the exchange: two capture sequences both played out from the same move are equal |
| StaticExchange.Victims | src/search/evaluate.rs:802-819 | the pieces standing on the target before each capture: the victim first, then each capturer but the last |
| StaticExchange.ResolveShifted | src/search/evaluate.rs:855-858 | the back-propagation from capture j on, plus the gain before it, is the textbook value of the exchange from capture j |
| StaticExchange.ResolveIsExchangeValue | src/search/evaluate.rs:855-858 | back-propagating the recorded gains gives the textbook exchange value of the capture sequence |
| StaticExchange.ExchangeBounds | src/search/evaluate.rs:792-861 | an exchange never wins more than the victim, never loses more than the capturing piece less the victim, and is worth exactly the victim when nobody recaptures |
| StaticExchange.PropagateAsWritten | src/search/evaluate.rs:855-860 | the loop as written returns the first gain unrevised, and panics (indexes past the 32-entry array) exactly when the exchange ran to index 32 |
| StaticExchange.Propagate | src/search/evaluate.rs:855-860 | the corrected loop returns the full negamax back-propagation of the recorded gains |
| StaticExchange.SeeAsWritten | src/search/evaluate.rs:792-861 | as written, whenever it does not panic, every capture is scored at its victim's value, and always so when nothing recaptures |
| StaticExchange.See | src/search/evaluate.rs:792-861 | the corrected evaluation is the textbook value of the exchange played out on the board (the moving piece, then each side's least valuable attacker among the pieces still standing, up to the stand-pat test), between the victim's value less the capturing piece's and the victim's value, and the victim's value when nothing recaptures |
| StaticExchange.QueenTakesDefendedPawn | src/search/evaluate.rs:802-860 | a queen taking a pawn defended by a pawn records gains 100, 800 and -700; the corrected value is -800 where the engine as written reports +100 |
| TranspositionTables.Slot | src/tt.rs:39 | every key lands in one of the HASH_SIZE slots |
| TranspositionTables.ProbeEntry | src/tt.rs:48-66 | an entry answers only for its own key at a depth at least the requested one and never when null; an exact entry gives its score, an alpha entry at or below alpha gives alpha, a beta entry at or above beta gives beta |
| TranspositionTables.SaveThenLookup | src/tt.rs:38-66 | a probe right after a save of the same key, at no greater depth, gives the exact score back, or alpha or beta for a bound that fails low or high |
| TranspositionTables.SaveEvicts | src/tt.rs:38-45 | always-replace: after a save, another key sharing the slot gets no answer |
| TranspositionTables.SaveKeepsOthers | src/tt.rs:38-45 | a save leaves the answer for every key of another slot as it was |
| TranspositionTables.EmptyTableMisses | src/tt.rs:19-35 | a table of null entries answers no probe, even for key 0 |
| TranspositionTables.TranspositionTable.constructor | src/tt.rs:31-35 | a new table holds HASH_SIZE null entries |
| TranspositionTables.TranspositionTable.Save | src/tt.rs:37-45 | the key's slot is overwritten with the new entry and every other slot is unchanged |
| TranspositionTables.TranspositionTable.Probe | src/tt.rs:47-66 | the answer is the lookup of the key's slot in the table's contents |
| TranspositionTables.TranspositionTable.Clear | src/tt.rs:68-70 | the table becomes a fresh one of HASH_SIZE null entries |
| PrincipalVariations.Slot | src/pv.rs:42 | every key lands in one of the PV_SIZE slots |
| PrincipalVariations.Find | src/pv.rs:46-53 | a key is answered exactly when its slot holds that key, and then with the slot's move |
| PrincipalVariations.StoreThenFind | src/pv.rs:41-53 | a probe right after a store under the same key finds the stored move |
| PrincipalVariations.StoreEvicts | src/pv.rs:41-44 | always-replace: after a store, another key sharing the slot is no longer answered |
| PrincipalVariations.StoreKeepsOthers | src/pv.rs:41-44 | a store leaves the answer for every key of another slot as it was |
| PrincipalVariations.ClearedTableAnswers | src/pv.rs:17-22 | a cleared table answers no key but 0, which it answers with the null move |
| PrincipalVariations.Advance | src/pv.rs:72 | playing a legal move keeps the walk consistent with the key tables |
| PrincipalVariations.TrailPrefix | src/pv.rs:58-75 | if the table leads through a line it leads through every prefix of it |
| PrincipalVariations.TrailUnique | src/pv.rs:58-75 | the table determines the line: two lines of one length that it leads through are equal |
| PrincipalVariations.LeadsOn | src/pv.rs:58-75 | a line the table leads through one move further shows the loop does not stop at the end of the shorter line |
| PrincipalVariations.NoLongerLine | src/pv.rs:58-75 | no line the table leads through is longer than the line at whose end the loop stops |
| PrincipalVariations.LongestLine | src/pv.rs:58-75 | every line the table leads through is a prefix of the line at whose end the loop stops |
| PrincipalVariations.PlayedLegally | src/pv.rs:58-75 | every move of a line the table leads through is the table's move for the position before it and legal there |
| PrincipalVariations.MakeLineMove | src/pv.rs:72 | make_move on a legal move plays it: the depth grows by one, the walk advances by the move, and only the history slot at the old depth changes, to the position before the move |
| PrincipalVariations.KeptOnLine | src/pv.rs:60 | listing the legal moves leaves the position where it was on its line |
| PrincipalVariations.PlayedOnLine | src/pv.rs:66-73 | playing the table's move that the step accepts puts the position one move further along its line |
| PrincipalVariations.PlayLegal | src/pv.rs:67-72 | a legal move is a step the line takes |
| PrincipalVariations.RefusedIllegal | src/pv.rs:67-69 | a move the line refuses is one not among the legal moves |
| PrincipalVariations.UnmakeLine | src/pv.rs:77-79 | taking back n moves lowers the depth by n, keeps the history, and restores the position saved n slots down |
| PrincipalVariations.NoneLegal | src/pv.rs:60 | where no move is generated there is no legal move |
| PrincipalVariations.ListHere | src/pv.rs:60 | the list is the legal moves of the unchanged position, or is reported full when the history is full and moves were generated |
| PrincipalVariations.FollowMove | src/pv.rs:71-72 | playing the table's legal move extends the position's line by that move |
| PrincipalVariations.PrincipalVariationTable.constructor | src/pv.rs:30-35 | a new table holds PV_SIZE default entries |
| PrincipalVariations.PrincipalVariationTable.Clear | src/pv.rs:37-39 | every slot of the existing table holds the default entry afterwards |
| PrincipalVariations.PrincipalVariationTable.Store | src/pv.rs:41-44 | the key's slot is overwritten with the key and move and every other slot is unchanged |
| PrincipalVariations.PrincipalVariationTable.Probe | src/pv.rs:46-53 | the answer is the lookup of the key in the table's contents |
| PrincipalVariations.PrincipalVariationTable.StepLine | src/pv.rs:58-75 | one round either plays the table's move one step along the line or stops where the table has no move or the move is not legal (or the history is full) |
| PrincipalVariations.PrincipalVariationTable.FollowLine | src/pv.rs:58-76 | the moves played are the line the table leads through from the starting position; the walk ends where the table stops or, with moves still generated, where the history is full |
| PrincipalVariations.PrincipalVariationTable.GetPvLine | src/pv.rs:55-82 | the returned line is one the table leads through from the starting position and it ends where the table stops, so it is the longest such line; it fails only when the history fills with moves still generated; the position is restored afterwards |
| SearchOptionsParsing.New | src/search/options.rs:14-26 | new options have no depth, time or moves-to-go limit and are not infinite |
| SearchOptionsParsing.LimitOf | src/search/options.rs:36 | a token recognised as a limit keyword is that keyword's name |
| SearchOptionsParsing.NameRecognised | src/search/options.rs:36-47 | each of the seven limit keywords is recognised as itself |
| SearchOptionsParsing.FromTokens | src/search/options.rs:29-54 | the loop over the token indices from 1 computes the scan of every token after the command word, including its panics as errors |
| SearchOptionsParsing.ScanPair | src/search/options.rs:36-48 | a limit keyword followed by a 32-bit number sets that limit, and the number token is then ignored |
| SearchOptionsParsing.NumberNotKeyword | src/search/options.rs:34-49 | a token starting with a digit is neither infinite nor a limit keyword |
| SearchOptionsParsing.TrailingKeywordPanics | src/search/options.rs:37 | a limit keyword as the last token panics (index out of bounds) |
| SearchOptionsParsing.BadValuePanics | src/search/options.rs:37 | a limit keyword followed by a token that is not a 32-bit unsigned number panics |
| SearchOptionsParsing.ScanIgnores | src/search/options.rs:49 | tokens that are neither infinite nor a limit keyword leave the options unchanged |
| SearchOptionsParsing.ScanLimit | src/search/options.rs:36-48 | the tokens of one limit, present or absent, store exactly that limit |
| SearchOptionsParsing.ScanLowerHalf | src/search/options.rs:29-54 | the winc, binc, movestogo and infinite tokens of a command set exactly those fields |
| SearchOptionsParsing.GoTokensRoundTrip | src/search/options.rs:29-54 | parsing the go command printed from any options with 32-bit limits and a byte depth gives those options back |
| SearchOptionsParsing.DepthWraps | src/search/options.rs:40 | go depth 300 keeps only the low byte of the depth: the search depth limit becomes 44 |
| Walks.Played | src/board.rs:375-598 | playing a move the engine may be handed keeps the walk well formed: twelve boards, castling rights within four bits |
| Walks.SameButWalk | src/board.rs:662-675 | two history entries that differ only in the full-move number record the same boards, side, en passant, rights and hash |
| Walks.MakeWalked | src/board.rs:375-598 | make_move on a move it may be handed reports true exactly when it plays the move; then the depth grows by one and the position is the played walk, otherwise the position and depth are unchanged |
| UciMoves.EncodedText | src/chess/_move.rs:156-172 | a packed move prints as its from and to square names followed by the lower-case promotion letter when it promotes |
| UciMoves.PrintsAs | src/search/utils.rs:23 | the comparison is true exactly when the move's text is the given string |
| UciMoves.FirstWithText | src/search/utils.rs:22-27 | the index found holds a move with the text and every earlier move has another text; none is found exactly when no move has the text |
| UciMoves.FirstWithTextAt | src/search/utils.rs:22-27 | a move with the text preceded only by moves with other texts is the one found |
| UciMoves.FirstPrinted | src/search/utils.rs:22-27 | the loop returns the first move of the list whose text is the string, or None when there is none |
| UciMoves.Parsed | src/search/utils.rs:17-28 | a move found in a position is one make_move may be handed there |
| UciMoves.ParseMove | src/search/utils.rs:17-28 | parse_move returns the first generated move of the position whose text is the string, None when no generated move has it |
| UciMoves.ParseWalked | src/search/utils.rs:17-28 | parse_move agrees with any parse function that parses as it does |
| UciMoves.StepSkips | src/search/utils.rs:10-12 | a text no generated move has leaves the position and the free history as they were |
| UciMoves.StepOverflows | src/search/utils.rs:10-12 | a found move with no free history slot makes the replay fail |
| UciMoves.StepFound | src/search/utils.rs:10-12 | a found move with a free slot is one make_move may be handed; played, the position moves on and takes a slot, refused, it stays |
| UciMoves.RunOutStays | src/search/utils.rs:9-13 | once a replay has failed, playing more texts cannot bring it back |
| UciMoves.ReplayNext | src/search/utils.rs:9-13 | playing the next text extends the replay by that text, or the whole replay fails |
| UciMoves.PlayText | src/search/utils.rs:10-12 | one round succeeds exactly when the replay step succeeds, and then the position and its free history are the step's result |
| UciMoves.ReplayText | src/search/utils.rs:9-13 | one pass extends the replay from the first i texts to the first i + 1, or the whole replay fails |
| UciMoves.ParseAndMakeMoves | src/search/utils.rs:8-14 | the texts are played in order, texts no generated move has are skipped, and the result succeeds exactly when the replay does, leaving the position at the replay's end; it fails where a found move finds the history full |

## Left out

- Bits.PopLsb: requires a non-empty board. On an empty board the engine's `*self - 1` overflows and panics, and every caller tests for a non-empty board first.
- Occupancy.SetOccupancy: requires at most as many bits as the mask holds. Asking for more pops an empty board, which panics as above.
- Positions.Position.MakeMove: requires a free history slot and a move the board indexing accepts (`CanMake`: a real piece, an en-passant victim on its square, a pawn move whose midpoint square exists). The engine panics or indexes out of range otherwise, and move generation only produces such moves (`MoveGeneration.GeneratedCanMake`).
- Positions.Position.SetFen: requires a FEN that `Fen.ParseFen` accepts. `Fen.ParseFen` models each of `set_fen`'s panics as an `Err`. The same holds for Positions.Position.SetFenAsWritten.
- Positions.Position.MakeNullMove: the corrected null move writes history slot `depth`, so it needs a free slot. The as-written member pushes onto the end of the stack instead.
- Hash consistency after `make_move` is not claimed. As written, `make_move` XORs in the new castling key without removing the old one, never XORs out a pawn taken en passant, and never updates the half-move clock, full-move number or material. The model states the hash change as the mask the code applies (`MoveEffects`), not as `update_hash` of the new position.
- The castling-rights mutators `add_right` and `remove_right` change a `Copy` value in place. They are modelled as functions that return the new value (`Castling.AddRight`, `Castling.RemoveRight`).
- `src/skaak/_move.rs` uses the same encoding, getters, setters and flags as `src/chess/_move.rs`, so the single `Moves` module models both.
- The attack functions duplicated inside `Position` (`src/board.rs:746-898`) are the same computations as `src/board/attacks.rs`. They are modelled once, in `Attacks` and `Occupancy`.
- Magic-number search and lookup (`_find_magic_number`, `_initialize_magic_numbers`, `get_*_magic_attacks`) are left out: random trials, console output and unseen constant tables. A magic lookup is modelled as the on-the-fly attack function it indexes.
- Zobrist key generation (`init_zorbrist_keys`) is left out. The key tables are parameters of unconstrained contents, as concrete key values are not part of any property.
- `src/movegen.rs` and `src/evaluation.rs` use `chess::Move` and `Position` fields (`pawn_attacks`, `file_masks` and so on) that the shown `Position` lacks. `chess::Move` is modelled as the bit-packed move, and those tables are the attack functions or parameters.
- MoveGeneration.GenerateLegalMoves: as written, `generate_legal_moves` also calls `unmake_move` after a `make_move` that refused the move, which takes back one position too many. The model states only the check test (`MoveGeneration.KeptAsWritten`). The corrected filter undoes only moves it made.
- The starting position is modelled by its twelve boards, and its FEN record is the text the FEN writer produces for them. That this text is character for character `rnbqkbnr/pppppppp/8/8/8/8/PPPPPPPP/RNBQKBNR w KQkq - 0 1` is not proved.
- The count of 20 legal moves for each side in the starting position (`src/movegen.rs:584-597`) is not proved: it needs the concrete attack tables evaluated move by move.
- Moves.SquareName, Moves.SquareOfName and Fen.ParseEnpassant number the squares from 0 = a8 along each rank to 63 = h1, as the engine's bitboards and tests do. `src/chess/square.rs`, which holds the engine's square names, is not part of this model.
- Evaluation.OrderMoves: promises a permutation sorted by descending score, but not that moves of equal score keep their order, which the engine's stable `sort_by` does (`src/evaluation.rs:611-617`).
- Perft counts are unbounded naturals. Wrap-around of the engine's `u64` node counter is not modelled.
- Search: `get_best_move` (iterative deepening, aspiration windows, info output) is left out. So are the recursive body of `negamax` beyond its modelled pieces and `_has_non_pawn_material`. Null-move pruning, reverse futility pruning, razoring, late-move pruning and reductions, and the principal-variation re-search are search heuristics with no stated property. The modelled pieces are the repetition score, the transposition-table move, the pick-best step, the cutoff updates, the no-move score and one quiescence node.
- The floating-point `lmr_table` built with `ln` is left out. No modelled member reads it.
- `get_tt_move` reads a transposition-table API (`tt.get`, `get_move`) that is not part of this model. The table move is a parameter of Searching.Evaluator.ScoreMoves and Searching.Evaluator.MoveScore.
- `get_all_attackers_to`, which `see` calls, is not part of this model. It is a parameter of the static exchange members.
- Wall-clock time, the stop and ponder flags, and `check_time`, `elapsed_ms`, `print_info` and `_get_time_ms` are left out. Whether the search is still running after each move is an input of Searching.Evaluator.Quiescence.
- `search_parallel` and the Lazy SMP threads are left out: concurrency.
- `src/uci.rs`, `draw`, `_print_bitboard` and `_print_progress_bar` are left out: console input and output.
- The older `src/evaluation.rs` searcher is modelled only in its evaluation, MVV-LVA ordering and TT probe rules. Its `negamax`, `quiescence` and `get_best_move` bodies are left out for the same reasons as the newer search. Its no-move score (`src/evaluation.rs:512-518`) is the formula of Searching.NoMoveScore.
- `i32` arithmetic in evaluation and search is modelled on unbounded integers. The material, bonus and mate scores the engine forms (mate scores near 49000) stay far inside 32 bits. The history table `history_moves` (`src/search/evaluate.rs:86`, updated at `src/search/evaluate.rs:633-641`) is the exception: each cutoff adds or subtracts depth squared, with no clamp and no decay, so over a long search its `i32` cells are not bounded by anything in the source. Searching.Evaluator.UpdateHistory states the change on unbounded integers. Searching.Evaluator.RankOrdersScores takes as a hypothesis that every history value stays strictly between the losing-capture and counter-move bands, which the source does not guarantee. The one wrap-around modelled is the time budget's `u32` arithmetic (TimeManagement.BudgetAsWritten).

## Findings

| source | as written | input that shows it | evidently intended | confidence | as-written member | corrected member |
|---|---|---|---|---|---|---|
| src/board.rs:109-117 | `make_null_move` pushes the history entry onto the end of the stack, but `unmake_move` reads slot `depth` | a new position: a null move, then a second null move and its unmake, gives back slot 1's default entry with White to move instead of Black | save the entry in slot `depth` as `make_move` does, so null move then unmake restores the position | high (not executed) | Positions.NullMoveCounterexample | Positions.Position.NullMoveThenUnmake |
| src/board.rs:283-294 | `set_fen` adds up material before `update_occupancies`, so `get_piece_at_square` reads the old occupancies, and it never resets `material` | a new position set to a lone white king on a8: White's material stays 0 | occupancies first, material reset to 0, then each piece counted | high (not executed) | Positions.LoneKingAsWritten | Positions.LoneKingIntended |
| src/search/evaluate.rs:855-860 | the back-propagation updates `gain[d]` from `gain[d + 1]` for `d` down to 1, so `gain[0]` is never revised, and an exchange that reaches index 32 reads `gain[32]` | a queen takes a pawn defended by a pawn: `see` returns +100 | the negamax fold `gain[d - 1] = -max(-gain[d - 1], gain[d])`, giving -800 | high (not executed) | StaticExchange.SeeAsWritten | StaticExchange.See |
| src/search/evaluate.rs:1212-1214 | king safety is `(white - black) * -(1 - 2 * turn)`, which is the opponent's pawn shield minus the mover's, the opposite sign of every other term | White to move, king g1 behind pawns f2, g2, h2, lone black king a8: -18 | the side to move's shield minus the opponent's, +18 | medium (not executed) | PositionalEvaluation.ShieldCountsAgainstMover | PositionalEvaluation.KingSafety |
| src/search/evaluate.rs:185-191 | `base * 3` (and `base` itself) is `u32` arithmetic, which wraps in a release build | 1431655766 ms on White's clock, `movestogo 1`: hard limit 2 ms under a soft limit of 477218588 ms | the exact budget, hard limit 477218588 ms | medium (not executed) | TimeManagement.BudgetWraps | TimeManagement.Budget |
| src/movegen.rs:516-529 | after `make_move` the side to move is the opponent, so `is_in_check` asks whether the opponent is in check | white king e1, black rook a2, black king e8: Ke2 into the rook's rank is kept | keep a move only when the mover's own king is not attacked afterwards | high (not executed) | MoveGeneration.KingWalksIntoRook | MoveGeneration.GenerateLegalMoves |
