# FEN codec of chess-ui, modelled in Dafny

chess-ui keeps a chess position as a `BoardData` record. It converts between that record and
FEN (Forsyth–Edwards Notation) text with three functions of `functions/game/FEN.ts`:

- `validateFEN` reports the first thing wrong with a FEN string: the grammar, a missing king,
  a rank that is too long, a pawn on the first or last rank, or a rank that does not cover eight
  files.
- `parseFEN` validates the text and then walks the eight rows with a file cursor. The walk fills
  a square-to-piece dictionary and the two king squares, and the other five fields are decoded.
- `boardDataToFEN` prints each row as runs of empty squares and piece letters, then the side to
  move, the castling rights, the en-passant target and the two clocks.

The file also holds `defaultFEN` and `getDefaultPositionBoardData`, the starting position as
text and as a hand-written record. The square, piece and position types come from
`types/index.ts`. The character classifiers and coordinate helpers come from `functions/misc.ts`.

Modules, one per concern:

| module | file | models |
|---|---|---|
| `Wrappers` | wrappers.dfy | `Option` and `Result` |
| `Strings` | strings.dfy | JavaScript `split`, `join`, `toString`, `parseInt` on digit text, `toLowerCase` |
| `Types` | types.dfy | types/index.ts |
| `Misc` | misc.dfy | functions/misc.ts |
| `FenGrammar` | fen_grammar.dfy | `FENRegex`, as predicates on the six space-separated fields |
| `FenValidate` | fen_validate.dfy | `validateFEN`: a method with its loops, proved equal to the function `Validation` |
| `FenParse` | fen_parse.dfy | `parseFEN`: methods with the row walk, proved equal to `ParseResult`; then what the walk produces |
| `FenSerialize` | fen_serialize.dfy | `boardDataToFEN`: methods with both loops, proved equal to `Serialize`; then how each field reads back |
| `FenRoundTrip` | fen_roundtrip.dfy | parse, then print, then parse again |
| `FenPosition` | fen_position.dfy | print, then parse, starting from any position of the parsed shape |
| `FenDefault` | fen_default.dfy | `defaultFEN` and `getDefaultPositionBoardData` |

Conventions:

- A square is the `Square` enum value 0..63, counted from a8: a8 = 0, h8 = 7, a1 = 56.
- The source keys `pieces` by the square's name (`Squares[square]`). The model keys it by the
  value. `Types.SquareOfNameOfSquareName` and `Types.SquareStringsNameSquares` show that names
  and values are in one-to-one correspondence, so the two keyings carry the same information.
- The source reports failures as message strings. The model uses `FenError` kinds. Two pairs of
  kinds share a message in the source and are kept apart here:
  - `GrammarMismatch` and `MissingKing` both print "Invalid FEN!".
  - `RankTooLong` and `RankSumNot8` both print "Invalid position at rank r".
- A throw of `parseFEN` is a `Failure` result.

## Model

| member | source | states |
|---|---|---|
| Strings.Split | functions/game/FEN.ts:9 | `split` always gives at least one part, and no part contains the separator |
| Strings.SplitJoin | functions/game/FEN.ts:221-228 | joining parts that contain no separator and splitting again gives back the same parts |
| Strings.JoinSplit | functions/game/FEN.ts:12 | splitting text and joining the parts gives back the text |
| Strings.InJoin | functions/game/FEN.ts:10-12 | a non-separator character occurs in the joined text exactly when it occurs in one of the parts |
| Strings.NatToString | functions/game/FEN.ts:209 | `toString` of a number is decimal text without a superfluous leading zero, and one digit for a number up to 9 |
| Strings.DecimalValueOfNatToString | functions/game/FEN.ts:55-56 | `parseInt` of a printed number gives the number back |
| Strings.NatToStringOfDecimalValue | functions/game/FEN.ts:226-227 | printing the value of canonical decimal text gives the text back |
| Strings.ToLower | functions/game/FEN.ts:17 | `toLowerCase` keeps the length and lower-cases each character; what the pawn test needs of it is proved in `FenRoundTrip.HasPawnLetters` |
| Types.SquareName | types/index.ts:27-36 | enum member `sq` is named by file letter `a` + sq % 8 and rank digit 8 - sq / 8 |
| Types.SquareOfName | types/index.ts:27-36 | on the names the grammar lets through, `Square[name]` is defined exactly for the names `[a-h][1-8]`, and it is the member of that name |
| Types.SquareOfNameOfSquareName | types/index.ts:27-38 | each square value is recovered from its name: names and values correspond one to one |
| Types.SquareStringsNameSquares | types/index.ts:16-38 | `SquareStrings` has 64 entries, entry i is the name of enum value i, and it equals `Squares` |
| Types.PieceRank.Code | types/index.ts:40-47 | each rank's enum value is an upper-case letter |
| Types.PieceRankCodesDistinct | types/index.ts:40-47 | two ranks have the same letter only if they are the same rank |
| Types.PieceColor.Code | types/index.ts:49-52 | White's enum value is `w` and Black's is `b`, and no other character is either |
| Misc.IsAlpha | functions/misc.ts:1 | `isAlpha` holds exactly for a one-character string that is upper or lower case |
| Misc.IsDigit | functions/misc.ts:3 | `isDigit` holds exactly for the printed forms of the values 0-9; such a string is one character, the printing of its own value, and never a letter |
| Misc.IsUpperCase | functions/misc.ts:5 | `isUpperCase` holds exactly for a one-character string that `toLowerCase` changes |
| Misc.IsLowerCase | functions/misc.ts:7 | `isLowerCase` holds exactly for a one-character string that is a letter `toLowerCase` leaves unchanged |
| Misc.CaseClassesDisjoint | functions/misc.ts:5-7 | no string is both upper and lower case |
| Misc.ToNotation | functions/misc.ts:9 | the first character has code 97 + col, and the rest is the decimal text of row + 1; on the board, row r and column c name square (7 - r) * 8 + c |
| Misc.GetFile | functions/misc.ts:11-15 | fails exactly for columns outside 0..7, with that column; otherwise the file letter a..h, which is also the first character of `toNotation(_, col)` |
| FenGrammar.MatchesFenRegexOfFields | functions/game/FEN.ts:4 | a string made of space-free fields joined by spaces matches the grammar exactly when there are six fields and each matches its part |
| FenGrammar.MatchesPlacementOfGroups | functions/game/FEN.ts:4 | a placement matches exactly when it has eight non-empty groups of `[KQRNBPkqbnrp1-8]` |
| FenGrammar.CastlingLettersShape | functions/game/FEN.ts:4 | the castling letters match `K?Q?k?q?`, are empty exactly when no right is held, contain a right's letter exactly when the right is held, and contain nothing else |
| FenGrammar.CastlingFlagsSplit | functions/game/FEN.ts:4 | every string matching `K?Q?k?q?` is the castling letters of some four rights |
| FenGrammar.CastlingFlagsAreLetters | functions/game/FEN.ts:4 | a string matching `K?Q?k?q?` is determined by which of K, Q, k, q it contains |
| FenValidate.ValidateFen | functions/game/FEN.ts:7-36 | the method returns `Validation(fen)`: grammar, then the white king, then the black king, then the first failing rank |
| FenValidate.CheckRanks | functions/game/FEN.ts:12-35 | the rank loop, with its inner character loop and counter, returns the first failing group's error or none |
| FenValidate.ValidationAcceptsIff | functions/game/FEN.ts:7-36 | validation accepts exactly the FENs that match the grammar, hold both kings and whose eight ranks all pass, whatever the order of the checks |
| FenValidate.ValidationEarlyFailures | functions/game/FEN.ts:8-11 | the grammar error is reported exactly for a mismatch; a missing white king exactly when the grammar matches and there is no `K`; a missing black king exactly when there is a `K` but no `k` |
| FenValidate.RankErrorOnGroup | functions/game/FEN.ts:14-34 | on a group of placement characters the rank checks are, in order: longer than 8, a pawn on rank 8 or 1, a file count other than 8 |
| FenValidate.RankErrorKinds | functions/game/FEN.ts:15-34 | each of the three rank errors, with its rank number, is reported exactly under its own condition |
| FenValidate.RankErrorNoneIff | functions/game/FEN.ts:14-34 | a group of placement characters passes the rank checks exactly when it satisfies `RankOk`, and a failure is one of the three rank errors |
| FenValidate.CharErrorNoneForGroup | functions/game/FEN.ts:18-33 | the inner loop rejects no character the grammar admits |
| FenValidate.RanksErrorNoneIff | functions/game/FEN.ts:13-35 | the rank loop succeeds exactly when every group passes |
| FenValidate.FirstFailingRank | functions/game/FEN.ts:13-35 | a failing rank loop reports the error of a group that fails while every group before it passes |
| FenValidate.RanksErrorSkip | functions/game/FEN.ts:13-35 | groups that pass do not change what the loop reports |
| FenValidate.FirstBadGroupDecides | functions/game/FEN.ts:13-35 | once the grammar and kings pass, the first failing group's error is what validation reports |
| FenValidate.ValidationFailingRank | functions/game/FEN.ts:13-35 | a failure after the grammar and king checks is located at a group with all earlier groups passing |
| FenValidate.RanksRankFailure | functions/game/FEN.ts:13-35 | on eight groups the loop reports a given rank error exactly when rank r's group has it and all groups above it pass |
| FenValidate.RanksRankFailureLocated | functions/game/FEN.ts:13-35 | a reported rank error names a rank 1..8 whose group has that error, with all groups above it passing |
| FenValidate.ValidationRankFailure | functions/game/FEN.ts:7-36 | validation reports a given rank error exactly when the grammar and kings pass, all ranks above r pass and rank r has that error |
| FenValidate.ValidationNoCharacterErrors | functions/game/FEN.ts:28-32 | the two invalid-character messages are never produced: every failure is the grammar, a king or a rank error |
| FenParse.RankOfLetter | functions/game/FEN.ts:84-105 | the switch gives a rank exactly for `kqrnbp`, and that rank's letter, lower-cased, is the character |
| FenParse.RankOfLetterOfCode | functions/game/FEN.ts:84-105 | the switch reads each rank's own letter, lower-cased, back as that rank |
| FenParse.ExpandLength | functions/game/FEN.ts:79 | the squares a group of placement characters describes number exactly the validator's counter `c` |
| FenParse.LastKingIsLast | functions/game/FEN.ts:109-111 | the king variable after n squares holds a king of its colour with no such king after it, and is unset exactly when there is none |
| FenParse.ParseFen | functions/game/FEN.ts:38-133 | the method returns `ParseResult(fen)`: the validation error, or the record built from the walk and the other fields |
| FenParse.PlacePieces | functions/game/FEN.ts:73-116 | the outer row loop gives what the row-by-row walk function gives |
| FenParse.PlaceRowChars | functions/game/FEN.ts:74-115 | the inner loop over a row's characters gives what the walk function gives for that row |
| FenParse.ValidatedShape | functions/game/FEN.ts:44 | a validated FEN has six fields and eight groups of eight squares, so the throws for a field count outside 4..6 and a row count other than 8 never fire |
| FenParse.ScanIsPlacedBelow | functions/game/FEN.ts:73-116 | the walk's state after n squares is the dictionary of the occupied squares below n plus the last king of each colour below n |
| FenParse.PlaceRowsWalk | functions/game/FEN.ts:73-116 | on validated groups the walk never throws, ends in the state of the whole board, and places one piece per letter |
| FenParse.PlaceRowWalk | functions/game/FEN.ts:76-115 | on one row the walk never throws and ends in the state after the row's last square |
| FenParse.PieceCountWalk | functions/game/FEN.ts:106-107 | a row adds one dictionary entry per piece letter |
| FenParse.BoardSquare | functions/game/FEN.ts:106 | square r * 8 + c of the board is file c of group r |
| FenParse.ParseResultIsBoard | functions/game/FEN.ts:38-133 | `parseFEN` throws exactly the validation error, and otherwise returns the position the FEN describes |
| FenParse.ParseFailsIff | functions/game/FEN.ts:39-40 | parsing fails exactly when validation does, with the same error; the walk's own throws never fire |
| FenParse.FenBoardPieceCount | functions/game/FEN.ts:106-107 | the parsed dictionary has one entry per piece letter of the placement |
| FenParse.FenBoardCharAt | functions/game/FEN.ts:76-114 | each character of each group is on the board: a letter puts its piece, with its row and file, at the cursor; a digit leaves that many squares out of the dictionary |
| FenParse.FenBoardPieces | functions/game/FEN.ts:106-107 | the parsed dictionary holds exactly the occupied squares of the board the groups describe |
| FenParse.FenBoardKing | functions/game/FEN.ts:109-111 | after validation each king field is set and names the last king of its colour in square order |
| FenParse.KingOnBoard | functions/game/FEN.ts:10-11 | a validated FEN's board holds a king of each colour |
| FenParse.FenBoardSideAndTarget | functions/game/FEN.ts:49 | the parsed record keeps the FEN text and no legal moves; white to move exactly for "w"; no target exactly for "-", and otherwise the square of that name |
| FenParse.FenBoardSideIsCode | functions/game/FEN.ts:65-66 | the side to move read is the colour whose enum value is the side field |
| FenParse.FenBoardCastling | functions/game/FEN.ts:128-131 | no right for "-"; otherwise the castling field is exactly the letters of the rights held |
| FenParse.FenBoardClocks | functions/game/FEN.ts:55-56 | printing a parsed clock gives the field back when the field has no superfluous leading zero |
| FenSerialize.RowCells | functions/game/FEN.ts:204-206 | a row has eight squares, and square col is what the dictionary holds at row * 8 + col |
| FenSerialize.Ranks | functions/game/FEN.ts:201-219 | eight row texts, row r being the printing of row r's squares |
| FenSerialize.BoardDataToFen | functions/game/FEN.ts:200-229 | the method returns `Serialize(data)`: the rows joined by '/', then side, castling, target and clocks joined by spaces |
| FenSerialize.EncodeRow | functions/game/FEN.ts:203-218 | the loop with its pending-empty counter prints a row as the run encoding of its squares, which never has two adjacent digits |
| FenSerialize.EncodeRunMinimal | functions/game/FEN.ts:205-217 | a run printed after c pending empty squares has no two adjacent digits, and when c > 0 it starts with one digit followed by a letter or nothing |
| FenSerialize.EncodeRankMinimal | functions/game/FEN.ts:203-218 | a printed row never has two adjacent digits: empty squares are always merged into one count |
| FenSerialize.PrintedRanksMinimal | functions/game/FEN.ts:201-219 | none of the eight printed rows of any position has two adjacent digits |
| FenSerialize.CellLetterReadsBack | functions/game/FEN.ts:212-213 | a printed piece letter is a placement letter that `parseFEN` reads as the same colour and rank |
| FenSerialize.LetterPrintsBack | functions/game/FEN.ts:212-213 | a placement letter is printed back as itself from the piece it describes |
| FenSerialize.EncodeRunReadsBack | functions/game/FEN.ts:203-217 | expanding a printed run gives the pending empty squares followed by the squares printed |
| FenSerialize.ExpandEncodeRank | functions/game/FEN.ts:203-217 | expanding a printed row gives the row's squares back |
| FenSerialize.EncodeRankIsGroup | functions/game/FEN.ts:203-217 | a printed row of eight squares is a rank group, at most 8 long, covering 8 files, with no bad character |
| FenSerialize.EncodeRankOfExpand | functions/game/FEN.ts:203-217 | a group with no two adjacent digits is printed back as itself from the squares it describes |
| FenSerialize.EncodeRunPlacement | functions/game/FEN.ts:203-217 | a printed run consists of placement characters and is no longer than its squares plus one |
| FenSerialize.PlacementFieldShape | functions/game/FEN.ts:221 | the placement field splits back at '/' into the eight printed rows and holds no space |
| FenSerialize.SideFieldIsCode | functions/game/FEN.ts:222 | the side field printed is the enum value of the side to move |
| FenSerialize.SideFieldReadsBack | functions/game/FEN.ts:222 | the side field matches `[wb]` and is "w" exactly for white |
| FenSerialize.CastlingFieldReadsBack | functions/game/FEN.ts:223-224 | the castling field matches the grammar, is "-" exactly when no right is held, and holds each right's letter exactly when the right is held |
| FenSerialize.ClockReadsBack | functions/game/FEN.ts:226-227 | a printed clock is a digit string that `parseInt` reads back as the clock |
| FenSerialize.EnPassantIntendedReadsBack | functions/game/FEN.ts:225 | the target printed by name matches the en-passant part of the grammar and `parseFEN` reads it back as the same target |
| FenSerialize.EnPassantAsWrittenRejected | functions/game/FEN.ts:225 | the target as printed, a square number, never matches the grammar's en-passant part |
| FenSerialize.SerializedFields | functions/game/FEN.ts:220-228 | the printed FEN splits back into its six fields, and its rank groups are the printed rows |
| FenSerialize.PrintedFieldsMatch | functions/game/FEN.ts:220-228 | with a grammatical target field the printed FEN matches the grammar |
| FenRoundTrip.HasPawnLetters | functions/game/FEN.ts:17 | `rank.toLowerCase().includes("p")` holds exactly when the group contains `p` or `P` |
| FenRoundTrip.RowCellsOfFenBoard | functions/game/FEN.ts:204-206 | the row `boardDataToFEN` reads from a parsed position is the row its group describes |
| FenRoundTrip.ReprintedRow | functions/game/FEN.ts:203-218 | reprinting a parsed row gives a rank group describing the same squares that passes the rank checks |
| FenRoundTrip.LetterCarriedOver | functions/game/FEN.ts:221 | every piece letter of a validated placement, the kings' included, occurs in the reprinted placement |
| FenRoundTrip.ReprintValidates | functions/game/FEN.ts:200-229 | printing a parsed position, with any grammatical target field, gives a FEN that validates |
| FenRoundTrip.ReprintParses | functions/game/FEN.ts:38-133 | that FEN parses to the same position, apart from its text and the target it names |
| FenRoundTrip.RoundTripIntended | functions/game/FEN.ts:200-229 | with the target printed by name, parse after print after parse gives the same position, apart from the text |
| FenRoundTrip.RoundTripAsWritten | functions/game/FEN.ts:200-229 | as written, the round trip holds for every position without an en-passant target |
| FenRoundTrip.SerializeRejectsTarget | functions/game/FEN.ts:225 | as written, every position with a target prints to a FEN that validation and `parseFEN` reject as ungrammatical |
| FenRoundTrip.EnPassantE3Printed | functions/game/FEN.ts:225 | the target "e3" is read as square 44 and printed back as "44"; by name it prints as "e3" |
| FenRoundTrip.SerializeIntendedOfFields | functions/game/FEN.ts:220-228 | the intended printing is the six fields joined by spaces |
| FenRoundTrip.CanonicalRow | functions/game/FEN.ts:203-218 | a parsed group with no two adjacent digits is reprinted character for character |
| FenRoundTrip.CanonicalRanks | functions/game/FEN.ts:201-219 | if no group has two adjacent digits, the reprinted rows are the groups |
| FenRoundTrip.CanonicalPlacement | functions/game/FEN.ts:221 | then the reprinted placement field is the original one |
| FenRoundTrip.SideAndTargetReprinted | functions/game/FEN.ts:222-225 | the side field and the target field printed by name are reprinted as they were |
| FenRoundTrip.CastlingReprinted | functions/game/FEN.ts:223-224 | a castling field other than the empty one is reprinted as it was |
| FenRoundTrip.CanonicalTextIntended | functions/game/FEN.ts:200-229 | a validated FEN in printed form, meaning no adjacent digits, a non-empty castling field and canonical clocks, is reproduced exactly with the target printed by name |
| FenRoundTrip.CanonicalTextAsWritten | functions/game/FEN.ts:200-229 | as written, such a FEN is reproduced exactly if and only if its target field is "-" |
| FenRoundTrip.TargetNotReproduced | functions/game/FEN.ts:225 | as written, a validated FEN with a target is never printed back as itself |
| FenRoundTrip.PrintedTextFixpoint | functions/game/FEN.ts:200-229 | with the target printed by name, the text printed from any parsed FEN validates and is printed back character for character: print after parse is idempotent on text |
| FenPosition.PrintedBoard | functions/game/FEN.ts:201-221 | the board the printed rows describe is the dictionary's squares |
| FenPosition.PiecesOfCells | functions/game/FEN.ts:106-107 | a dictionary whose pieces record their own row and file is rebuilt exactly by the walk over its squares |
| FenPosition.CellsOfPieces | functions/game/FEN.ts:206 | the squares of the walk's dictionary are the board it walked |
| FenPosition.PrintedRowPawns | functions/game/FEN.ts:17 | a printed row contains a pawn letter exactly when the row holds a pawn |
| FenPosition.PrintedRowOk | functions/game/FEN.ts:14-34 | with no pawn on rank 8 or 1, every printed row passes the rank checks |
| FenPosition.PrintedKing | functions/game/FEN.ts:10-11 | a king on the board puts its letter in the printed placement |
| FenPosition.PrintedValidates | functions/game/FEN.ts:7-36 | every position of the parsed shape prints, with the target by name, to a FEN that validates |
| FenPosition.PositionReparsed | functions/game/FEN.ts:38-133 | parsing that FEN gives the position back, apart from its text |
| FenPosition.PositionRoundTripIntended | functions/game/FEN.ts:200-229 | print then parse is the identity, apart from the text, on positions of the parsed shape |
| FenPosition.PositionRoundTripAsWritten | functions/game/FEN.ts:200-229 | as written, it is the identity on such positions without a target |
| FenPosition.ShapeOfWalk | functions/game/FEN.ts:73-116 | a walk that saw both kings and no pawn on rank 8 or 1 produces a position of the parsed shape |
| FenPosition.FenBoardShape | functions/game/FEN.ts:38-133 | every position `parseFEN` returns has the parsed shape |
| FenPosition.BackRankNoPawn | functions/game/FEN.ts:17 | the first and last groups of a validated FEN hold no pawn letter |
| FenDefault.DefaultPiecesFromTop | functions/game/FEN.ts:148-183 | the table with rows counted from rank 8 has the same squares, each piece with its row mirrored; `FenDefault.FromTopCells` and `FenDefault.FromTopPositionParsed` prove that it is the starting position as `parseFEN` returns it |
| FenDefault.DefaultCells | functions/game/FEN.ts:148-183 | the written table holds the starting position square by square |
| FenDefault.FromTopCells | functions/game/FEN.ts:148-183 | so does the table with rows counted from rank 8 |
| FenDefault.FromTopRowsAndFiles | functions/game/FEN.ts:148-183 | in the table with rows counted from rank 8 each piece records its own row and file, as `parseFEN` records them |
| FenDefault.StartRanks | functions/game/FEN.ts:201-219 | the rows of the starting position print as the rows of `defaultFEN` |
| FenDefault.StartKings | functions/game/FEN.ts:139-140 | in the starting position the last white king is on e1 (60) and the last black king on e8 (4) |
| FenDefault.DefaultPlacementJoined | functions/game/FEN.ts:5 | the eight rows of `defaultFEN`, joined by '/', are its placement field |
| FenDefault.DefaultFieldsJoined | functions/game/FEN.ts:5 | the six fields of `defaultFEN`, joined by spaces, are `defaultFEN` |
| FenDefault.StartPrinted | functions/game/FEN.ts:200-229 | any record of the starting position with the default flags and clocks prints to `defaultFEN`, both as written and with the target printed by name |
| FenDefault.DefaultPositionPrinted | functions/game/FEN.ts:135-198 | `getDefaultPositionBoardData()` prints to `defaultFEN` |
| FenDefault.DefaultFenParsed | functions/game/FEN.ts:5 | `defaultFEN` validates and parses to the default position with rows counted from rank 8, with no legal moves |
| FenDefault.FromTopPositionParsed | functions/game/FEN.ts:135-198 | the default position with rows counted from rank 8 is what `parseFEN(defaultFEN)` returns plus the legal-move table, and it prints to `defaultFEN` |
| FenDefault.DefaultParsedShape | functions/game/FEN.ts:135-184 | the default position with rows counted from rank 8 has the parsed shape |
| FenDefault.WrittenAgainstFromTop | functions/game/FEN.ts:148-183 | the written default position differs from the parsed one only in its `pieces` rows and its `legalMoves` table |
| FenDefault.WrittenRowOfA1 | functions/game/FEN.ts:149 | the rook on a1 has row 0 as written, but row 7 once parsed |
| FenDefault.DefaultRowsMirrored | functions/game/FEN.ts:148-183 | parsing `defaultFEN` gives the written default position with every piece's row mirrored and the legal moves dropped |
| FenDefault.ToNotationOfRows | functions/misc.ts:9 | `toNotation(row, col)` names every square of the written table correctly, but names the parsed a1 rook "a8" |

## Left out

- The `svg` and `unicode` fields of `Piece` (types/index.ts:94-107) are looked up from image
  assets and constants. The codec never reads them.
- `previousSquare` of `BoardData` is never touched by the codec.
- Types.SquareOfName: the reverse-mapping keys of the numeric `Square` enum (`Square["0"]` is
  "a8") are not modelled. `parseFEN` indexes the enum only with a target field the grammar has
  already restricted to `[a-h][1-8]`.
- The UI components and the other game files are not part of this model.
- Messages are kept as error kinds, not as the strings `validateFEN` returns or `parseFEN`
  throws. Their text, including the FEN appended to most of them, is left out.
- `FENRegex` is modelled as a grammar on the fields, not through a regular-expression engine.
  Its parts contain no space and are separated by single spaces, so matching the whole string
  is the same as splitting at spaces and matching six fields.
- `constants/index.ts` has a second FEN expression, with optional clocks. The codec does not use
  it, so it is not part of this model.
- Strings.DecimalValue: models `parseInt` on digit text exactly, with unbounded integers. The
  double-precision rounding of clocks of 16 digits or more is left out.
- Strings.NatToString: prints every clock in plain decimal. `Number.prototype.toString` prints
  values of 1e21 and above in exponent form ("1e+21"), which the `\d+` part of the grammar
  rejects. So `FenRoundTrip.RoundTripAsWritten`, `FenRoundTrip.RoundTripIntended` and the other
  round trips hold in the program only for clocks below 1e21 (and, for the value read back, below
  2^53).
- The `try`/`catch` around `parseInt` (FEN.ts:54-60) can never fire on digit text. It is left
  out, and so are the console logging and the fallback clock values.
- FenParse.ParseFen has no branch for the field-count throw (FEN.ts:44) or the row-count throw
  (FEN.ts:63). `FenParse.ValidatedShape` proves that neither fires after validation.
- FenParse.PlaceRowChars checks `col > 7` before writing the piece. The source writes first and
  then throws (FEN.ts:107-113), so the write is lost with the dictionary. `FenParse.ParseFailsIff`
  proves that this throw, and the unknown-letter throw, never fire.
- `legalMoves` is always empty after `parseFEN`. The default position's table (FEN.ts:185-196)
  is kept as a constant, with no claim about chess rules.
- The king checks of `validateFEN` (FEN.ts:10-11) use `match` without the global flag, so they
  test whether a king letter is present, not how many there are. The model does the same.
- Strings.ToLowerChar and Strings.ToLower: lower-case ASCII letters only. `toLowerCase` also
  maps other Unicode letters, but the grammar admits only ASCII before it is applied.
- Misc.ToNotation: requires `col + 97` to be a character code below 0xD800. The wrap of
  `String.fromCharCode` modulo 65536 and lone surrogate codes are not modelled, since Dafny's
  `char` excludes surrogates. The codec never calls it.

## Findings

| source | as written | input that shows it | evidently intended | confidence | as-written member | corrected member |
|---|---|---|---|---|---|---|
| functions/game/FEN.ts:225 | `boardDataToFEN` prints the en-passant target with `toString()` of the `Square` enum value, which is a number | the FEN `rnbqkbnr/pppppppp/8/8/4P3/8/PPPP1PPP/RNBQKBNR b KQkq e3 0 1` parses with target 44 (e3), which prints back as `... b KQkq 44 0 1`, which `validateFEN` rejects | print the square's name (`Squares[data.enPassant]`), which `parseFEN` reads back | not executed | FenRoundTrip.SerializeRejectsTarget | FenRoundTrip.RoundTripIntended |
| functions/game/FEN.ts:148-183 | `getDefaultPositionBoardData` counts a piece's `row` from rank 1 (a1 is row 0, as `toNotation` at functions/misc.ts:9 reads it), while `parseFEN` counts it from rank 8 (`rowNo`) | `parseFEN(defaultFEN)` gives the rook on a1 row 7, but the hand-written default position gives it row 0 (`FenDefault.ToNotationOfRows`: `toNotation` names the written rook "a1" and the parsed one "a8") | one convention for both: either side could be the fix. Nothing in the codec reads `row`. The corrected member takes the rows `parseFEN` assigns | not executed | FenDefault.DefaultRowsMirrored | FenDefault.FromTopPositionParsed |
