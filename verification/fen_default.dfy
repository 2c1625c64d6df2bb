/** `defaultFEN` and `getDefaultPositionBoardData` of functions/game/FEN.ts: the starting
    position, as text and as a hand-written `BoardData`, set against what `parseFEN` makes of
    the text. */
module FenDefault {
  import opened Wrappers
  import opened Seqs
  import opened Strings
  import opened Types
  import opened Misc
  import opened FenValidate
  import opened FenParse
  import opened FenSerialize
  import opened FenPosition

  /** `defaultFEN` */
  const DefaultFen: string := "rnbqkbnr/pppppppp/8/8/8/8/PPPPPPPP/RNBQKBNR w KQkq - 0 1"

  /** The rows of `defaultFEN`, rank 8 first. */
  const DefaultGroups: seq<string> :=
    ["rnbqkbnr", "pppppppp", "8", "8", "8", "8", "PPPPPPPP", "RNBQKBNR"]

  /** The `pieces` table as written: each piece's `row` counts ranks from rank 1 (a1 is row 0),
      while the dictionary key is the `Square` value, which counts from rank 8 (a1 is 56). */
  const DefaultPieces: map<Square, Piece> := map[
    56 := Piece(White, Rook, 0, 0), 57 := Piece(White, Knight, 0, 1),
    58 := Piece(White, Bishop, 0, 2), 59 := Piece(White, Queen, 0, 3),
    60 := Piece(White, King, 0, 4), 61 := Piece(White, Bishop, 0, 5),
    62 := Piece(White, Knight, 0, 6), 63 := Piece(White, Rook, 0, 7),
    48 := Piece(White, Pawn, 1, 0), 49 := Piece(White, Pawn, 1, 1),
    50 := Piece(White, Pawn, 1, 2), 51 := Piece(White, Pawn, 1, 3),
    52 := Piece(White, Pawn, 1, 4), 53 := Piece(White, Pawn, 1, 5),
    54 := Piece(White, Pawn, 1, 6), 55 := Piece(White, Pawn, 1, 7),
    8 := Piece(Black, Pawn, 6, 0), 9 := Piece(Black, Pawn, 6, 1),
    10 := Piece(Black, Pawn, 6, 2), 11 := Piece(Black, Pawn, 6, 3),
    12 := Piece(Black, Pawn, 6, 4), 13 := Piece(Black, Pawn, 6, 5),
    14 := Piece(Black, Pawn, 6, 6), 15 := Piece(Black, Pawn, 6, 7),
    0 := Piece(Black, Rook, 7, 0), 1 := Piece(Black, Knight, 7, 1),
    2 := Piece(Black, Bishop, 7, 2), 3 := Piece(Black, Queen, 7, 3),
    4 := Piece(Black, King, 7, 4), 5 := Piece(Black, Bishop, 7, 5),
    6 := Piece(Black, Knight, 7, 6), 7 := Piece(Black, Rook, 7, 7)]

  /** The `legalMoves` table: the knights of b1 and g1 and the eight white pawns. */
  const DefaultLegalMoves: map<Square, set<Square>> := map[
    57 := {40, 42}, 62 := {45, 47},
    48 := {40, 32}, 49 := {41, 33}, 50 := {42, 34}, 51 := {43, 35},
    52 := {44, 36}, 53 := {45, 37}, 54 := {46, 38}, 55 := {47, 39}]

  /** The position around a given `pieces` table. */
  function DefaultWith(pieces: map<Square, Piece>, legalMoves: map<Square, set<Square>>): BoardData {
    BoardData(
      fen := DefaultFen,
      enPassant := None,
      whiteKing := Some(60),
      blackKing := Some(4),
      halfMove := 0,
      fullMove := 1,
      turn := White,
      whiteShortCastle := true,
      whiteLongCastle := true,
      blackShortCastle := true,
      blackLongCastle := true,
      pieces := pieces,
      legalMoves := legalMoves)
  }

  /** `getDefaultPositionBoardData()` as written. */
  function DefaultPosition(): BoardData {
    DefaultWith(DefaultPieces, DefaultLegalMoves)
  }

  /** A piece with its row counted from rank 8, as the row walk of `parseFEN` counts it. */
  function RowFromTop(p: Piece): Piece {
    p.(row := 7 - p.row)
  }

  /** The `pieces` table with each row counted from rank 8, as `parseFEN` counts rows: one of the
      two ways to make the default position and the parsed `defaultFEN` agree (the other would
      change `parseFEN` to count rows from rank 1, as `toNotation` does). */
  function DefaultPiecesFromTop(): (pieces: map<Square, Piece>)
    ensures pieces.Keys == DefaultPieces.Keys
    ensures forall sq :: sq in pieces ==> pieces[sq] == RowFromTop(DefaultPieces[sq])
  {
    map sq | sq in DefaultPieces :: RowFromTop(DefaultPieces[sq])
  }

  /** `getDefaultPositionBoardData()` with each piece's row counted as `parseFEN` counts it. */
  function DefaultPositionFromTop(): BoardData {
    DefaultWith(DefaultPiecesFromTop(), DefaultLegalMoves)
  }

  /** `getDefaultPositionBoardData()` with rows counted from rank 8, without the `legalMoves`
      table that `parseFEN` leaves empty. */
  function DefaultParsed(): BoardData {
    DefaultWith(DefaultPiecesFromTop(), map[])
  }

  /** The starting back row, file a first. */
  const BackRow: seq<PieceRank> := [Rook, Knight, Bishop, Queen, King, Bishop, Knight, Rook]

  /** A run of occupied squares is printed as their letters. */
  lemma {:induction false} EncodeRunLetters(cells: seq<Cell>)
    requires forall i :: 0 <= i < |cells| ==> cells[i].Occupied?
    ensures EncodeRun(cells, 0) == seq(|cells|, i requires 0 <= i < |cells| => CellLetter(cells[i].color, cells[i].rank))
    decreases |cells|
  {
    if cells != [] {
      EncodeRunLetters(cells[1..]);
    }
  }

  /** A run of empty squares after c pending ones is printed as one number. */
  lemma {:induction false} EncodeRunAllEmpty(cells: seq<Cell>, c: nat)
    requires forall i :: 0 <= i < |cells| ==> cells[i] == Empty
    ensures EncodeRun(cells, c) == Flush(c + |cells|)
    decreases |cells|
  {
    if cells != [] {
      EncodeRunAllEmpty(cells[1..], c + 1);
    }
  }

  /** The starting position square by square, as `defaultFEN` describes it. */
  function StartCell(sq: Square): Cell {
    if sq < 8 then Occupied(Black, BackRow[sq])
    else if sq < 16 then Occupied(Black, Pawn)
    else if sq < 48 then Empty
    else if sq < 56 then Occupied(White, Pawn)
    else Occupied(White, BackRow[sq - 56])
  }

  // Helpers: the table checked one range of squares at a time, to keep each proof small.

  lemma DefaultCellsBlack()
    ensures forall sq :: 0 <= sq < 16 ==> CellOf(DefaultPieces, sq) == StartCell(sq)
  {
  }

  lemma DefaultCellsEmpty()
    ensures forall sq :: 16 <= sq < 48 ==> CellOf(DefaultPieces, sq) == StartCell(sq)
  {
  }

  lemma DefaultCellsWhite()
    ensures forall sq :: 48 <= sq < 64 ==> CellOf(DefaultPieces, sq) == StartCell(sq)
  {
    DefaultCellsWhitePawns();
    DefaultCellsWhiteBack();
  }

  lemma DefaultCellsWhitePawns()
    ensures forall sq :: 48 <= sq < 56 ==> CellOf(DefaultPieces, sq) == StartCell(sq)
  {
  }

  lemma DefaultCellsWhiteBack()
    ensures forall sq :: 56 <= sq < 64 ==> CellOf(DefaultPieces, sq) == StartCell(sq)
  {
  }

  /** A dictionary that describes the starting position on every square. */
  predicate IsStart(pieces: map<Square, Piece>) {
    forall sq :: 0 <= sq < 64 ==> CellOf(pieces, sq) == StartCell(sq)
  }

  /** The `pieces` table describes the starting position on every square. */
  lemma DefaultCells()
    ensures IsStart(DefaultPieces)
  {
    DefaultCellsBlack();
    DefaultCellsEmpty();
    DefaultCellsWhite();
  }

  /** Row r of the starting position. */
  lemma StartRow(pieces: map<Square, Piece>, r: nat)
    requires IsStart(pieces) && r < 8
    ensures RowCells(pieces, r) == seq(8, c requires 0 <= c < 8 => StartCell(r * 8 + c))
  {
  }

  /** The back rows are printed as "rnbqkbnr" and "RNBQKBNR". */
  lemma StartBackRow(pieces: map<Square, Piece>, r: nat)
    requires IsStart(pieces) && (r == 0 || r == 7)
    ensures Ranks(pieces)[r] == DefaultGroups[r]
  {
    var cells := RowCells(pieces, r);
    StartRow(pieces, r);
    var color := if r == 0 then Black else White;
    assert cells == seq(8, c requires 0 <= c < 8 => Occupied(color, BackRow[c]));
    EncodeRunLetters(cells);
  }

  /** The pawn rows are printed as "pppppppp" and "PPPPPPPP". */
  lemma StartPawnRow(pieces: map<Square, Piece>, r: nat)
    requires IsStart(pieces) && (r == 1 || r == 6)
    ensures Ranks(pieces)[r] == DefaultGroups[r]
  {
    var cells := RowCells(pieces, r);
    StartRow(pieces, r);
    var color := if r == 1 then Black else White;
    assert cells == seq(8, c requires 0 <= c < 8 => Occupied(color, Pawn));
    EncodeRunLetters(cells);
  }

  /** Each of the four middle rows is printed as "8". */
  lemma StartEmptyRow(pieces: map<Square, Piece>, r: nat)
    requires IsStart(pieces) && 2 <= r <= 5
    ensures Ranks(pieces)[r] == DefaultGroups[r]
  {
    var cells := RowCells(pieces, r);
    StartRow(pieces, r);
    EncodeRunAllEmpty(cells, 0);
  }

  /** The starting position is printed as the rows of `defaultFEN`. */
  lemma StartRanks(pieces: map<Square, Piece>)
    requires IsStart(pieces)
    ensures Ranks(pieces) == DefaultGroups
  {
    forall r | 0 <= r < 8 ensures Ranks(pieces)[r] == DefaultGroups[r] {
      if r == 0 || r == 7 {
        StartBackRow(pieces, r);
      } else if r == 1 || r == 6 {
        StartPawnRow(pieces, r);
      } else {
        StartEmptyRow(pieces, r);
      }
    }
  }

  /** Counting rows from rank 8 changes no square's colour or rank. */
  lemma FromTopCells()
    ensures IsStart(DefaultPiecesFromTop())
  {
    DefaultCells();
    var pieces := DefaultPiecesFromTop();
    forall sq | 0 <= sq < 64 ensures CellOf(pieces, sq) == CellOf(DefaultPieces, sq) {
    }
  }

  /** The last king of a colour below n is on k when k holds one and no later square does. */
  lemma {:induction false} LastKingAt(cells: seq<Cell>, color: PieceColor, n: int, k: int)
    requires |cells| == 64 && 0 <= k < n <= 64 && cells[k] == Occupied(color, King)
    requires forall s :: k < s < n ==> cells[s] != Occupied(color, King)
    ensures LastKing(cells, color, n) == Some(k)
    decreases n
  {
    if n - 1 > k {
      LastKingAt(cells, color, n - 1, k);
    }
  }

  /** In the starting position the kings stand on e1 (60) and e8 (4). */
  lemma StartKings(pieces: map<Square, Piece>)
    requires IsStart(pieces)
    ensures LastKing(CellsOf(pieces), White, 64) == Some(60)
    ensures LastKing(CellsOf(pieces), Black, 64) == Some(4)
  {
    var cells := CellsOf(pieces);
    assert forall s :: 0 <= s < 64 ==> cells[s] == StartCell(s);
    LastKingAt(cells, White, 64, 60);
    LastKingAt(cells, Black, 64, 4);
  }

  /** Each piece of the table with rows counted from rank 8 records its own row and file. */
  lemma FromTopRowsAndFiles()
    ensures RowsAndFilesAgree(DefaultPiecesFromTop())
  {
  }

  /** No square of the first or last row of the starting position holds a pawn. */
  lemma StartBackRanks(pieces: map<Square, Piece>)
    requires IsStart(pieces)
    ensures forall sq :: sq in pieces && IsBackRank(sq / 8) ==> pieces[sq].rank != Pawn
  {
    forall sq | sq in pieces && IsBackRank(sq / 8) ensures pieces[sq].rank != Pawn {
      assert CellOf(pieces, sq) == StartCell(sq);
    }
  }

  /** The default position with rows counted from rank 8 has the shape of every position
      `parseFEN` returns. */
  lemma DefaultParsedShape()
    ensures IsParsedShape(DefaultParsed())
  {
    var pieces := DefaultPiecesFromTop();
    FromTopCells();
    FromTopRowsAndFiles();
    StartKings(pieces);
    StartBackRanks(pieces);
  }

  /** The placement field of `defaultFEN`. */
  const DefaultPlacement: string := "rnbqkbnr/pppppppp/8/8/8/8/PPPPPPPP/RNBQKBNR"

  /** The six fields of `defaultFEN`. */
  const DefaultFields: seq<string> := [DefaultPlacement, "w", "KQkq", "-", "0", "1"]

  /** Joining two runs of parts one after the other. */
  lemma {:induction false} JoinAppend(a: seq<string>, b: seq<string>, d: char)
    requires |a| >= 1 && |b| >= 1
    ensures Join(a + b, d) == Join(a, d) + [d] + Join(b, d)
    decreases |a|
  {
    if |a| > 1 {
      JoinAppend(a[1..], b, d);
      assert (a + b)[1..] == a[1..] + b;
    }
  }

  lemma DefaultBlackRowsJoined()
    ensures Join(DefaultGroups[..2], '/') == "rnbqkbnr/pppppppp"
  {
    assert DefaultGroups[..2][1..] == ["pppppppp"];
  }

  lemma DefaultMiddleRowsJoined()
    ensures Join(DefaultGroups[2..6], '/') == "8/8/8/8"
  {
    var m := DefaultGroups[2..6];
    assert m[3..] == ["8"];
    assert Join(m[2..], '/') == "8/8" by { assert m[2..][1..] == m[3..]; }
    assert Join(m[1..], '/') == "8/8/8" by { assert m[1..][1..] == m[2..]; }
  }

  lemma DefaultWhiteRowsJoined()
    ensures Join(DefaultGroups[6..], '/') == "PPPPPPPP/RNBQKBNR"
  {
    assert DefaultGroups[6..][1..] == ["RNBQKBNR"];
  }

  /** Joining parts in three runs. */
  lemma JoinThree(g: seq<string>, i: nat, j: nat, d: char)
    requires 1 <= i < j < |g|
    ensures Join(g, d) == Join(g[..i], d) + [d] + Join(g[i..j], d) + [d] + Join(g[j..], d)
  {
    assert g == g[..i] + g[i..j] + g[j..];
    JoinAppend(g[..i] + g[i..j], g[j..], d);
    JoinAppend(g[..i], g[i..j], d);
    assert (g[..i] + g[i..j])[..i] == g[..i];
  }

  lemma DefaultPlacementText()
    ensures DefaultPlacement == "rnbqkbnr/pppppppp" + "/" + "8/8/8/8" + "/" + "PPPPPPPP/RNBQKBNR"
  {
  }

  lemma DefaultPlacementJoined()
    ensures Join(DefaultGroups, '/') == DefaultPlacement
  {
    JoinThree(DefaultGroups, 2, 6, '/');
    DefaultBlackRowsJoined();
    DefaultMiddleRowsJoined();
    DefaultWhiteRowsJoined();
    DefaultPlacementText();
  }

  lemma DefaultFieldsJoined()
    ensures Join(DefaultFields, ' ') == DefaultFen
  {
    var f := DefaultFields;
    assert Join(f[5..], ' ') == "1";
    assert Join(f[4..], ' ') == "0 1" by { assert f[4..][1..] == f[5..]; }
    assert Join(f[3..], ' ') == "- 0 1" by { assert f[3..][1..] == f[4..]; }
    assert Join(f[2..], ' ') == "KQkq - 0 1" by { assert f[2..][1..] == f[3..]; }
    assert Join(f[1..], ' ') == "w KQkq - 0 1" by { assert f[1..][1..] == f[2..]; }
  }

  /** Printing the eight rows and the other fields of the starting position gives `defaultFEN`. */
  lemma StartPrinted(data: BoardData)
    requires IsStart(data.pieces) && data.turn == White && data.enPassant == None
    requires data.whiteShortCastle && data.whiteLongCastle && data.blackShortCastle && data.blackLongCastle
    requires data.halfMove == 0 && data.fullMove == 1
    ensures Serialize(data) == DefaultFen && SerializeIntended(data) == DefaultFen
  {
    StartFields(data);
    DefaultFieldsJoined();
  }

  /** The six fields printed for the starting position, the target written as "-". */
  lemma StartFields(data: BoardData)
    requires IsStart(data.pieces) && data.turn == White
    requires data.whiteShortCastle && data.whiteLongCastle && data.blackShortCastle && data.blackLongCastle
    requires data.halfMove == 0 && data.fullMove == 1
    ensures FieldsWith(data, "-") == DefaultFields
  {
    StartRanks(data.pieces);
    DefaultPlacementJoined();
    var fields := FieldsWith(data, "-");
    assert fields[0] == DefaultFields[0];
    assert fields[2] == "KQkq";
    assert fields[4] == "0" && fields[5] == "1";
    SameElements(fields, DefaultFields);
  }

  /** `boardDataToFEN(getDefaultPositionBoardData())` is `defaultFEN`: printing ignores the
      `row` and `col` of the pieces. */
  lemma DefaultPositionPrinted()
    ensures Serialize(DefaultPosition()) == DefaultFen
  {
    DefaultCells();
    StartPrinted(DefaultPosition());
  }

  /** `parseFEN(defaultFEN)` returns the starting position with rows counted from rank 8. */
  lemma DefaultFenParsed()
    ensures Validation(DefaultFen) == None
    ensures ParseResult(DefaultFen) == Success(DefaultParsed())
  {
    DefaultParsedShape();
    FromTopCells();
    StartPrinted(DefaultParsed());
    PositionRoundTripIntended(DefaultParsed());
  }

  /** `getDefaultPositionBoardData()` with rows counted from rank 8 is what `parseFEN(defaultFEN)`
      returns, with the `legalMoves` table added, and it prints to `defaultFEN`. */
  lemma FromTopPositionParsed()
    ensures ParseResult(DefaultFen).Success?
    ensures DefaultPositionFromTop() == ParseResult(DefaultFen).value.(legalMoves := DefaultLegalMoves)
    ensures Serialize(DefaultPositionFromTop()) == DefaultFen
  {
    DefaultFenParsed();
    FromTopCells();
    StartPrinted(DefaultPositionFromTop());
  }

  /** The position as written and the one with rows counted from rank 8 differ only in the rows
      of the pieces and the `legalMoves` table. */
  lemma WrittenAgainstFromTop()
    ensures DefaultPosition() == DefaultParsed().(pieces := DefaultPieces, legalMoves := DefaultLegalMoves)
    ensures DefaultParsed().pieces.Keys == DefaultPieces.Keys
    ensures forall sq :: sq in DefaultPieces ==> DefaultParsed().pieces[sq] == RowFromTop(DefaultPieces[sq])
  {
  }

  /** a1 is square 56: row 0 as written, row 7 as the walk counts. */
  lemma WrittenRowOfA1()
    ensures 56 in DefaultPieces && DefaultPieces[56].row == 0
    ensures 56 in DefaultParsed().pieces && DefaultParsed().pieces[56].row == 7
  {
  }

  /** As written, `getDefaultPositionBoardData()` agrees with `parseFEN(defaultFEN)` on every
      field but `legalMoves` and the rows of the pieces: each piece sits on the same square with
      the same colour, rank and file, but its `row` is mirrored, so that a1 has row 0 where the
      parsed position gives it row 7. */
  lemma DefaultRowsMirrored()
    ensures ParseResult(DefaultFen).Success?
    ensures var parsed := ParseResult(DefaultFen).value;
      DefaultPosition() == parsed.(pieces := DefaultPieces, legalMoves := DefaultLegalMoves)
      && parsed.pieces.Keys == DefaultPieces.Keys
      && (forall sq :: sq in DefaultPieces ==> parsed.pieces[sq] == RowFromTop(DefaultPieces[sq]))
      && 56 in parsed.pieces && DefaultPieces[56].row == 0 && parsed.pieces[56].row == 7
  {
    DefaultFenParsed();
    WrittenAgainstFromTop();
    WrittenRowOfA1();
  }

  /** The two conventions, seen through `toNotation(row, col)`, which prints rank row + 1: for
      every piece of the table as written it names the piece's own square, while for the rook
      that `parseFEN(defaultFEN)` puts on a1 it names a8. */
  lemma ToNotationOfRows()
    ensures forall sq :: sq in DefaultPieces ==>
              ToNotation(DefaultPieces[sq].row, DefaultPieces[sq].col) == SquareName(sq)
    ensures 56 in DefaultParsed().pieces
    ensures ToNotation(DefaultParsed().pieces[56].row, DefaultParsed().pieces[56].col) == "a8"
  {
    FromTopRowsAndFiles();
    forall sq | sq in DefaultPieces
      ensures ToNotation(DefaultPieces[sq].row, DefaultPieces[sq].col) == SquareName(sq)
    {
      var p := DefaultPieces[sq];
      assert DefaultPiecesFromTop()[sq] == RowFromTop(p);
      assert p.row == 7 - sq / 8 && p.col == sq % 8;
      assert (7 - p.row) * 8 + p.col == sq;
    }
    WrittenRowOfA1();
  }
}
