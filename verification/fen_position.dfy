/** The positions `parseFEN` of functions/game/FEN.ts returns, described without reference to FEN
    text, and the round trip that starts from such a position: printing it with
    `boardDataToFEN` and parsing the result gives the position back. */
module FenPosition {
  import opened Wrappers
  import opened Strings
  import opened Types
  import opened Misc
  import opened FenGrammar
  import opened FenValidate
  import opened FenParse
  import opened FenSerialize
  import opened FenRoundTrip

  /** What `data.pieces[Squares[square]]` says about each of the 64 squares. */
  function CellsOf(pieces: map<Square, Piece>): (cells: seq<Cell>)
    ensures |cells| == 64 && forall sq :: 0 <= sq < 64 ==> cells[sq] == CellOf(pieces, sq)
  {
    seq(64, sq requires 0 <= sq < 64 => CellOf(pieces, sq))
  }

  /** Every piece records its own row and file, as the row walk stores it. */
  predicate RowsAndFilesAgree(pieces: map<Square, Piece>) {
    forall sq :: sq in pieces ==> pieces[sq].row == sq / 8 && pieces[sq].col == sq % 8
  }

  /** The shape of every position `parseFEN` returns: pieces that record their own squares,
      king fields that hold the last king of each colour in square order, a king of each
      colour, no pawn on the first or last row, and no legal moves. */
  predicate IsParsedShape(data: BoardData) {
    var cells := CellsOf(data.pieces);
    RowsAndFilesAgree(data.pieces)
    && data.whiteKing == LastKing(cells, White, 64) && data.blackKing == LastKing(cells, Black, 64)
    && data.whiteKing.Some? && data.blackKing.Some?
    && (forall sq :: sq in data.pieces && IsBackRank(sq / 8) ==> data.pieces[sq].rank != Pawn)
    && data.legalMoves == map[]
  }

  /** The printed rows are eight rank groups of eight squares each. */
  lemma PrintedRows(pieces: map<Square, Piece>)
    ensures PlacementRows(Ranks(pieces)) && RowsOfEight(Ranks(pieces))
  {
    var ng := Ranks(pieces);
    forall r | 0 <= r < 8 ensures IsRankGroup(ng[r]) && Units(ng[r]) == 8 && |Expand(ng[r])| == 8 {
      EncodeRankIsGroup(RowCells(pieces, r));
      ExpandEncodeRank(RowCells(pieces, r));
    }
  }

  /** Square n = r * 8 + c of the board of the printed rows is what the dictionary says of it. */
  lemma PrintedSquare(pieces: map<Square, Piece>, r: nat, c: nat, n: nat)
    requires r < 8 && c < 8 && n == r * 8 + c
    requires RowsOfEight(Ranks(pieces))
    ensures Board(Ranks(pieces))[n] == CellOf(pieces, n)
  {
    var cells := Board(Ranks(pieces));
    RowSlice(Ranks(pieces), r);
    ExpandEncodeRank(RowCells(pieces, r));
    assert cells[r * 8..r * 8 + 8][c] == cells[n];
  }

  /** Reading back the printed rows gives the board the dictionary describes. */
  lemma PrintedBoard(pieces: map<Square, Piece>)
    ensures RowsOfEight(Ranks(pieces)) && Board(Ranks(pieces)) == CellsOf(pieces)
  {
    PrintedRows(pieces);
    forall sq | 0 <= sq < 64 ensures Board(Ranks(pieces))[sq] == CellsOf(pieces)[sq] {
      PrintedSquare(pieces, sq / 8, sq % 8, sq);
    }
  }

  /** The dictionary the walk builds from the board of a dictionary whose pieces record their
      own squares is that dictionary. */
  lemma PiecesOfCells(pieces: map<Square, Piece>)
    requires RowsAndFilesAgree(pieces)
    ensures PiecesBelow(CellsOf(pieces), 64) == pieces
  {
    var cells := CellsOf(pieces);
    var back := PiecesBelow(cells, 64);
    assert forall sq :: sq in back <==> sq in pieces;
    forall sq | sq in pieces ensures back[sq] == pieces[sq] {
      assert cells[sq] == CellOf(pieces, sq);
    }
  }

  /** The board of the dictionary the walk builds is the board it walked. */
  lemma CellsOfPieces(cells: seq<Cell>)
    requires |cells| == 64
    ensures CellsOf(PiecesBelow(cells, 64)) == cells
  {
    var pieces := PiecesBelow(cells, 64);
    forall sq | 0 <= sq < 64 ensures CellsOf(pieces)[sq] == cells[sq] {
      assert sq in pieces <==> cells[sq].Occupied?;
    }
  }

  /** A printed row holds a pawn letter exactly when the row holds a pawn. */
  lemma PrintedRowPawns(pieces: map<Square, Piece>, r: nat)
    requires r < 8
    ensures HasPawn(Ranks(pieces)[r]) <==>
      Occupied(White, Pawn) in RowCells(pieces, r) || Occupied(Black, Pawn) in RowCells(pieces, r)
  {
    var g := Ranks(pieces)[r];
    RankTextShape(pieces, r);
    ExpandEncodeRank(RowCells(pieces, r));
    HasPawnLetters(g);
    LetterInExpand(g, 'P');
    LetterInExpand(g, 'p');
  }

  /** A back row without pawns passes the rank checks of `validateFEN`. */
  lemma PrintedRowOk(data: BoardData, r: nat)
    requires r < 8
    requires forall sq :: sq in data.pieces && IsBackRank(sq / 8) ==> data.pieces[sq].rank != Pawn
    ensures RankOk(Ranks(data.pieces)[r], r)
  {
    var cells := RowCells(data.pieces, r);
    EncodeRankIsGroup(cells);
    PrintedRowPawns(data.pieces, r);
    if IsBackRank(r) {
      forall c | 0 <= c < 8 ensures cells[c].Occupied? ==> cells[c].rank != Pawn {
        SquareOfRowFile(r, c);
      }
    }
  }

  /** A king on square sq puts its letter into the printed placement. */
  lemma PrintedKing(pieces: map<Square, Piece>, sq: Square, x: char)
    requires x == 'K' || x == 'k'
    requires CellOf(pieces, sq) == LetterCell(x)
    ensures x in Join(Ranks(pieces), '/')
  {
    var r := sq / 8;
    var ng := Ranks(pieces);
    SquareOfRowFile(r, sq % 8);
    assert RowCells(pieces, r)[sq % 8] == LetterCell(x);
    RankTextShape(pieces, r);
    ExpandEncodeRank(RowCells(pieces, r));
    LetterInExpand(ng[r], x);
    InJoin(ng, '/', x);
  }

  /** The FEN printed from a position of the parsed shape, with the target printed by name,
      passes `validateFEN`. */
  lemma PrintedValidates(data: BoardData)
    requires IsParsedShape(data)
    ensures Validation(SerializeIntended(data)) == None
  {
    var ep := EnPassantFieldIntended(data.enPassant);
    var s := SerializeIntended(data);
    var ng := Ranks(data.pieces);
    var cells := CellsOf(data.pieces);
    EnPassantIntendedReadsBack(data.enPassant);
    PrintedFieldsMatch(data, ep);
    PrintedRows(data.pieces);
    forall r | 0 <= r < 8 ensures RankOk(ng[r], r) {
      PrintedRowOk(data, r);
    }
    LastKingIsLast(cells, White, 64);
    LastKingIsLast(cells, Black, 64);
    PrintedKing(data.pieces, data.whiteKing.value, 'K');
    PrintedKing(data.pieces, data.blackKing.value, 'k');
    assert RanksOkBefore(s, 8);
    ValidationAcceptsIff(s);
  }

  /** Parsing the FEN printed from a position of the parsed shape, with the target printed by
      name, gives the position back, recording the printed text. */
  lemma PositionReparsed(data: BoardData)
    requires IsParsedShape(data)
    ensures var s := SerializeIntended(data);
      Validation(s) == None && FenBoard(s) == data.(fen := s)
  {
    var ep := EnPassantFieldIntended(data.enPassant);
    PrintedValidates(data);
    EnPassantIntendedReadsBack(data.enPassant);
    SerializedFields(data, ep);
    PrintedBoard(data.pieces);
    PiecesOfCells(data.pieces);
    SideFieldReadsBack(data.turn);
    CastlingFieldReadsBack(data.whiteShortCastle, data.whiteLongCastle, data.blackShortCastle, data.blackLongCastle);
    ClockReadsBack(data.halfMove);
    ClockReadsBack(data.fullMove);
  }

  /** `parseFEN(boardDataToFEN(data))` for a position of the parsed shape, with the target
      printed by name: the position comes back, recording the printed text. */
  lemma PositionRoundTripIntended(data: BoardData)
    requires IsParsedShape(data)
    ensures var s := SerializeIntended(data);
      Validation(s) == None && ParseResult(s) == Success(data.(fen := s))
  {
    PositionReparsed(data);
    ParseResultIsBoard(SerializeIntended(data));
  }

  /** The same round trip as written, for a position without an en-passant target. */
  lemma PositionRoundTripAsWritten(data: BoardData)
    requires IsParsedShape(data) && data.enPassant == None
    ensures var s := Serialize(data);
      Validation(s) == None && ParseResult(s) == Success(data.(fen := s))
  {
    PositionRoundTripIntended(data);
  }

  /** A position built by the walk over a board with a king of each colour and no pawn on a
      back row has the parsed shape. */
  lemma ShapeOfWalk(data: BoardData, cells: seq<Cell>)
    requires |cells| == 64
    requires data.pieces == PiecesBelow(cells, 64)
    requires data.whiteKing == LastKing(cells, White, 64) && data.blackKing == LastKing(cells, Black, 64)
    requires data.whiteKing.Some? && data.blackKing.Some? && data.legalMoves == map[]
    requires forall sq :: 0 <= sq < 64 && IsBackRank(sq / 8) ==> cells[sq] != Occupied(White, Pawn)
    requires forall sq :: 0 <= sq < 64 && IsBackRank(sq / 8) ==> cells[sq] != Occupied(Black, Pawn)
    ensures IsParsedShape(data)
  {
    CellsOfPieces(cells);
    forall sq | sq in data.pieces && IsBackRank(sq / 8) ensures data.pieces[sq].rank != Pawn {
      assert data.pieces[sq] == PieceAt(cells, sq);
      assert cells[sq] != Occupied(White, Pawn) && cells[sq] != Occupied(Black, Pawn);
      assert cells[sq].color == White || cells[sq].color == Black;
    }
  }

  /** Every position `parseFEN` returns has the parsed shape. */
  lemma FenBoardShape(fen: string)
    requires Validation(fen) == None
    ensures IsParsedShape(FenBoard(fen))
  {
    ValidatedShape(fen);
    var groups := RankGroups(fen);
    var cells := Board(groups);
    var b := FenBoard(fen);
    FenBoardKing(fen, White);
    FenBoardKing(fen, Black);
    FenBoardSideAndTarget(fen);
    forall sq | 0 <= sq < 64 && IsBackRank(sq / 8)
      ensures cells[sq] != Occupied(White, Pawn) && cells[sq] != Occupied(Black, Pawn)
    {
      BackRankCell(fen, sq / 8, sq % 8, sq);
    }
    ShapeOfWalk(b, cells);
  }

  /** A back row of a valid FEN holds no pawn letter. */
  lemma BackRankNoPawn(fen: string, r: nat)
    requires Validation(fen) == None && r < 8 && IsBackRank(r)
    ensures |RankGroups(fen)| == 8 && !HasPawn(RankGroups(fen)[r]) && AllPlacement(RankGroups(fen)[r])
  {
    ValidatedShape(fen);
    ValidationAcceptsIff(fen);
    assert RankOk(RankGroups(fen)[r], r);
    assert IsRankGroup(RankGroups(fen)[r]);
  }

  /** A square that a group without a pawn letter describes holds no pawn. */
  lemma NoPawnCell(groups: seq<string>, r: nat, c: nat, n: nat)
    requires RowsOfEight(groups) && r < 8 && c < 8 && n == r * 8 + c
    requires AllPlacement(groups[r]) && !HasPawn(groups[r])
    ensures Board(groups)[n] != Occupied(White, Pawn) && Board(groups)[n] != Occupied(Black, Pawn)
  {
    var g := groups[r];
    RowSlice(groups, r);
    assert Expand(g)[c] == Board(groups)[n];
    HasPawnLetters(g);
    LetterInExpand(g, 'P');
    LetterInExpand(g, 'p');
  }

  /** No square of a back row of a valid FEN holds a pawn. */
  lemma BackRankCell(fen: string, r: nat, c: nat, n: nat)
    requires Validation(fen) == None && r < 8 && c < 8 && n == r * 8 + c && IsBackRank(r)
    ensures RowsOfEight(RankGroups(fen))
    ensures Board(RankGroups(fen))[n] != Occupied(White, Pawn)
    ensures Board(RankGroups(fen))[n] != Occupied(Black, Pawn)
  {
    ValidatedShape(fen);
    BackRankNoPawn(fen, r);
    NoPawnCell(RankGroups(fen), r, c, n);
  }
}
