/** `parseFEN` of functions/game/FEN.ts: validation, then a walk over the eight rows with a file
    cursor that fills the square-to-piece dictionary, then the decoding of the other fields. */
module FenParse {
  import opened Wrappers
  import opened Seqs
  import opened Strings
  import opened Types
  import opened Misc
  import opened FenGrammar
  import opened FenValidate

  /** One square of the board a placement field describes. */
  datatype Cell = Empty | Occupied(color: PieceColor, rank: PieceRank)

  /** The `switch (ch.toLowerCase())` of the row walk: the rank a lower-case letter names. */
  function RankOfLetter(lower: char): (r: Option<PieceRank>)
    ensures r.Some? <==> IsPieceLetterLower(lower)
    ensures r.Some? ==> ToLowerChar(r.value.Code()) == lower
  {
    match lower
    case 'k' => Some(King)
    case 'q' => Some(Queen)
    case 'r' => Some(Rook)
    case 'n' => Some(Knight)
    case 'b' => Some(Bishop)
    case 'p' => Some(Pawn)
    case _ => None
  }

  /** Reading a rank's code back gives the rank. */
  lemma RankOfLetterOfCode(k: PieceRank)
    ensures RankOfLetter(ToLowerChar(k.Code())) == Some(k)
  {
  }

  /** `misc.isUpperCase(ch) ? PieceColor.White : PieceColor.Black` */
  function ColorOfLetter(ch: char): PieceColor {
    if IsUpperCase([ch]) then White else Black
  }

  function Empties(n: nat): (cells: seq<Cell>)
    ensures |cells| == n && forall k :: 0 <= k < n ==> cells[k] == Empty
  {
    seq(n, _ => Empty)
  }

  /** The squares one placement character covers: a digit that many empty squares, a piece
      letter one occupied square. */
  function CharCells(ch: char): seq<Cell> {
    if IsDigit([ch]) then Empties(DigitValue(ch))
    else match RankOfLetter(ToLowerChar(ch))
      case None => []
      case Some(k) => [Occupied(ColorOfLetter(ch), k)]
  }

  /** The squares a rank group describes, file a first. */
  function Expand(g: string): seq<Cell> {
    if g == [] then [] else CharCells(g[0]) + Expand(g[1..])
  }

  lemma {:induction false} ExpandAppend(a: string, b: string)
    ensures Expand(a + b) == Expand(a) + Expand(b)
  {
    if a == [] {
      assert a + b == b;
    } else {
      assert (a + b)[0] == a[0] && (a + b)[1..] == a[1..] + b;
      ExpandAppend(a[1..], b);
    }
  }

  /** A placement character covers as many squares as it adds to the counter of
      `validateFEN`. */
  lemma CharCellsLength(ch: char)
    requires IsPlacementChar(ch)
    ensures |CharCells(ch)| == CharUnit(ch)
    ensures !IsDigit([ch]) ==> CharCells(ch) == [Occupied(ColorOfLetter(ch), RankOfLetter(ToLowerChar(ch)).value)]
  {
  }

  /** A group covers as many squares as `validateFEN` counts for it. */
  lemma {:induction false} ExpandLength(g: string)
    requires forall k :: 0 <= k < |g| ==> IsPlacementChar(g[k])
    ensures |Expand(g)| == Units(g)
    decreases |g|
  {
    if g != [] {
      var init := g[..|g| - 1];
      var last := g[|g| - 1];
      assert g == init + [last];
      ExpandAppend(init, [last]);
      assert Expand([last]) == CharCells(last) + Expand([]);
      ExpandLength(init);
      CharCellsLength(last);
    }
  }

  /** Eight groups of placement characters, each covering eight files: what validation leaves. */
  predicate PlacementRows(groups: seq<string>) {
    |groups| == 8 && forall r :: 0 <= r < 8 ==> IsRankGroup(groups[r]) && Units(groups[r]) == 8
  }

  /** Eight groups that each describe eight squares. */
  predicate RowsOfEight(groups: seq<string>) {
    |groups| == 8 && forall r :: 0 <= r < 8 ==> |Expand(groups[r])| == 8
  }

  lemma PlacementRowsExpand(groups: seq<string>)
    requires PlacementRows(groups)
    ensures RowsOfEight(groups)
  {
    forall r | 0 <= r < 8 ensures |Expand(groups[r])| == 8 {
      ExpandLength(groups[r]);
    }
  }

  /** The squares of groups r .. 7, one group of eight after the other. */
  function BoardFrom(groups: seq<string>, r: nat): seq<Cell>
    requires |groups| == 8 && r <= 8
    decreases 8 - r
  {
    if r == 8 then [] else Expand(groups[r]) + BoardFrom(groups, r + 1)
  }

  lemma {:induction false} BoardFromLength(groups: seq<string>, r: nat)
    requires RowsOfEight(groups) && r <= 8
    ensures |BoardFrom(groups, r)| == 64 - 8 * r
    decreases 8 - r
  {
    if r < 8 {
      BoardFromLength(groups, r + 1);
    }
  }

  /** The 64-square board of the placement groups, indexed like `Square`: group r, file c is
      square r * 8 + c. */
  function Board(groups: seq<string>): (cells: seq<Cell>)
    requires RowsOfEight(groups)
    ensures |cells| == 64
  {
    BoardFromLength(groups, 0);
    BoardFrom(groups, 0)
  }

  /** The `Piece` the row walk stores for an occupied square: row = rowNo, col = the file. */
  function PieceAt(cells: seq<Cell>, sq: Square): Piece
    requires |cells| == 64 && cells[sq].Occupied?
  {
    Piece(cells[sq].color, cells[sq].rank, sq / 8, sq % 8)
  }

  /** The dictionary entries for the occupied squares below n. */
  function PiecesBelow(cells: seq<Cell>, n: int): map<Square, Piece>
    requires |cells| == 64 && 0 <= n <= 64
  {
    map sq: Square | 0 <= sq < n && cells[sq].Occupied? :: PieceAt(cells, sq)
  }

  /** The last square below n holding a king of `color`: the square `whiteKing` or `blackKing`
      holds once the walk has passed n, since a later king overwrites an earlier one. */
  function LastKing(cells: seq<Cell>, color: PieceColor, n: int): (k: Option<Square>)
    requires |cells| == 64 && 0 <= n <= 64
    ensures k.Some? ==> k.value < n
  {
    if n == 0 then None
    else if cells[n - 1] == Occupied(color, King) then Some(n - 1)
    else LastKing(cells, color, n - 1)
  }

  /** `LastKing` finds the king of `color` below n with no such king after it, and finds
      nothing exactly when there is no such king. */
  lemma {:induction false} LastKingIsLast(cells: seq<Cell>, color: PieceColor, n: int)
    requires |cells| == 64 && 0 <= n <= 64
    ensures var k := LastKing(cells, color, n);
      (k.Some? ==> cells[k.value] == Occupied(color, King)
                   && forall s :: k.value < s < n ==> cells[s] != Occupied(color, King))
      && (k.None? <==> forall s :: 0 <= s < n ==> cells[s] != Occupied(color, King))
  {
    if n > 0 && cells[n - 1] != Occupied(color, King) {
      LastKingIsLast(cells, color, n - 1);
    }
  }

  /** The state of the walk: the `pieces` dictionary and the two king variables. */
  datatype Placed = Placed(pieces: map<Square, Piece>, whiteKing: Option<Square>, blackKing: Option<Square>)

  /** The walk's state once it has passed square n of the board. */
  function PlacedBelow(cells: seq<Cell>, n: int): Placed
    requires |cells| == 64 && 0 <= n <= 64
  {
    Placed(PiecesBelow(cells, n), LastKing(cells, White, n), LastKing(cells, Black, n))
  }

  /** `pieces[Squares[square]] = piece`, then the king update. */
  function Place(acc: Placed, sq: Square, piece: Piece): Placed {
    Placed(acc.pieces[sq := piece],
      if piece.rank == King && piece.color == White then Some(sq) else acc.whiteKing,
      if piece.rank == King && piece.color == Black then Some(sq) else acc.blackKing)
  }

  /** The inner loop of the walk over the characters `rest` still to read in row `rowNo`, with
      the cursor at `col`. */
  function PlaceRow(rest: string, rowNo: int, col: nat, acc: Placed): Result<Placed, FenError>
    requires 0 <= rowNo < 8
  {
    if rest == [] then Success(acc)
    else
      var ch := rest[0];
      if IsDigit([ch]) then PlaceRow(rest[1..], rowNo, col + DigitValue(ch), acc)
      else match RankOfLetter(ToLowerChar(ch))
        case None => Failure(UnknownPiece(ch))
        case Some(rank) =>
          if col > 7 then Failure(FileOverflow)
          else PlaceRow(rest[1..], rowNo, col + 1,
                 Place(acc, rowNo * 8 + col, Piece(ColorOfLetter(ch), rank, rowNo, col)))
  }

  /** The outer loop of the walk from row `rowNo` on. */
  function PlaceRows(rows: seq<string>, rowNo: nat, acc: Placed): Result<Placed, FenError>
    requires |rows| == 8 && rowNo <= 8
    decreases 8 - rowNo
  {
    if rowNo == 8 then Success(acc)
    else match PlaceRow(rows[rowNo], rowNo, 0, acc)
      case Failure(e) => Failure(e)
      case Success(a) => PlaceRows(rows, rowNo + 1, a)
  }

  /** `Square[name]` for the en-passant field, or null for "-". */
  function EnPassantTarget(f: string): Option<Square> {
    if f == "-" then None else SquareOfName(f)
  }

  /** The returned record, built from the walk's state and the other five fields. */
  function DecodeFields(fen: string, p: Placed): BoardData
    requires Validation(fen) == None
  {
    var fields := Split(fen, ' ');
    BoardData(
      fen := fen,
      enPassant := EnPassantTarget(fields[3]),
      whiteKing := p.whiteKing,
      blackKing := p.blackKing,
      halfMove := DecimalValue(fields[4]),
      fullMove := DecimalValue(fields[5]),
      turn := if fields[1] == "w" then White else Black,
      whiteShortCastle := 'K' in fields[2],
      whiteLongCastle := 'Q' in fields[2],
      blackShortCastle := 'k' in fields[2],
      blackLongCastle := 'q' in fields[2],
      pieces := p.pieces,
      legalMoves := map[])
  }

  /** What `parseFEN` returns or throws. */
  function ParseResult(fen: string): Result<BoardData, FenError> {
    match Validation(fen)
    case Some(e) => Failure(e)
    case None =>
      match PlaceRows(RankGroups(fen), 0, Placed(map[], None, None))
      case Failure(e) => Failure(e)
      case Success(p) => Success(DecodeFields(fen, p))
  }

  /** `parseFEN(FEN)` */
  method ParseFen(fen: string) returns (r: Result<BoardData, FenError>)
    ensures r == ParseResult(fen)
  {
    var validation := ValidateFen(fen);
    if validation.Some? {
      return Failure(validation.value);
    }
    var fields := Split(fen, ' ');
    var rows := Split(fields[0], '/');
    var placed := PlacePieces(rows);
    if placed.Failure? {
      return Failure(placed.error);
    }
    r := Success(DecodeFields(fen, placed.value));
  }

  /** The walk of `parseFEN` over the rows, filling `pieces` and the king squares. */
  method PlacePieces(rows: seq<string>) returns (r: Result<Placed, FenError>)
    requires |rows| == 8
    ensures r == PlaceRows(rows, 0, Placed(map[], None, None))
  {
    var acc := Placed(map[], None, None);
    for rowNo := 0 to 8
      invariant PlaceRows(rows, 0, Placed(map[], None, None)) == PlaceRows(rows, rowNo, acc)
    {
      var placed := PlaceRowChars(rows[rowNo], rowNo, acc);
      if placed.Failure? {
        return Failure(placed.error);
      }
      acc := placed.value;
    }
    return Success(acc);
  }

  /** The body of the row loop of `parseFEN`: the walk over the characters of row `rowNo`. */
  method PlaceRowChars(row: string, rowNo: nat, acc: Placed) returns (r: Result<Placed, FenError>)
    requires rowNo < 8
    ensures r == PlaceRow(row, rowNo, 0, acc)
  {
    var col: nat := 0;
    var pieces: map<Square, Piece> := acc.pieces;
    var whiteKing: Option<Square> := acc.whiteKing;
    var blackKing: Option<Square> := acc.blackKing;
    assert row[0..] == row;
    for i := 0 to |row|
      invariant PlaceRow(row, rowNo, 0, acc)
             == PlaceRow(row[i..], rowNo, col, Placed(pieces, whiteKing, blackKing))
    {
      var ch := row[i];
      assert row[i..][0] == ch && row[i..][1..] == row[i + 1..];
      if IsDigit([ch]) {
        col := col + DigitValue(ch);
        continue;
      }
      var color := if IsUpperCase([ch]) then White else Black;
      var rank := RankOfLetter(ToLowerChar(ch));
      if rank.None? {
        return Failure(UnknownPiece(ch));
      }
      // the source writes the piece before this check; the throw discards the write
      if col > 7 {
        return Failure(FileOverflow);
      }
      var square: Square := rowNo * 8 + col;
      pieces := pieces[square := Piece(color, rank.value, rowNo, col)];
      if rank.value == King {
        if color == White {
          whiteKing := Some(square);
        } else {
          blackKing := Some(square);
        }
      }
      col := col + 1;
    }
    return Success(Placed(pieces, whiteKing, blackKing));
  }

  /** What validation guarantees the walk: six fields and eight well-formed groups. In particular
      the throws for a field count outside 4..6 and for a row count other than 8 never fire. */
  lemma ValidatedShape(fen: string)
    requires Validation(fen) == None
    ensures |Split(fen, ' ')| == 6
    ensures PlacementRows(RankGroups(fen)) && RowsOfEight(RankGroups(fen))
  {
    ValidationAcceptsIff(fen);
    var groups := RankGroups(fen);
    assert forall r :: 0 <= r < 8 ==> RankOk(groups[r], r);
    PlacementRowsExpand(groups);
  }

  /** The position a valid FEN describes, square by square: the reference for `parseFEN`. */
  function FenBoard(fen: string): BoardData
    requires Validation(fen) == None
  {
    ValidatedShape(fen);
    DecodeFields(fen, PlacedBelow(Board(RankGroups(fen)), 64))
  }

  lemma SquareOfRowFile(r: int, c: int)
    requires 0 <= r < 8 && 0 <= c < 8
    ensures 0 <= r * 8 + c < 64 && (r * 8 + c) / 8 == r && (r * 8 + c) % 8 == c
  {
  }

  /** The walk's state after passing squares 0 .. n - 1 one by one: an occupied square stores
      its piece, an empty one changes nothing. */
  function Scan(cells: seq<Cell>, n: int): Placed
    requires |cells| == 64 && 0 <= n <= 64
  {
    if n == 0 then Placed(map[], None, None)
    else if cells[n - 1].Occupied? then Place(Scan(cells, n - 1), n - 1, PieceAt(cells, n - 1))
    else Scan(cells, n - 1)
  }

  /** Passing an occupied square adds its piece under a key not yet present. */
  lemma PassOccupied(cells: seq<Cell>, n: int)
    requires |cells| == 64 && 0 <= n < 64 && cells[n].Occupied?
    ensures n !in PiecesBelow(cells, n)
    ensures PiecesBelow(cells, n + 1) == PiecesBelow(cells, n)[n := PieceAt(cells, n)]
  {
  }

  /** Square by square, the walk's state is the dictionary of the occupied squares passed and
      the last king square of each colour. */
  lemma {:induction false} ScanIsPlacedBelow(cells: seq<Cell>, n: int)
    requires |cells| == 64 && 0 <= n <= 64
    ensures Scan(cells, n) == PlacedBelow(cells, n)
  {
    if n > 0 {
      ScanIsPlacedBelow(cells, n - 1);
      if cells[n - 1].Occupied? {
        PassOccupied(cells, n - 1);
      } else {
        assert PiecesBelow(cells, n) == PiecesBelow(cells, n - 1);
      }
    }
  }

  /** Passing an occupied square stores one more piece. */
  lemma ScanCount(cells: seq<Cell>, n: int)
    requires |cells| == 64 && 0 <= n < 64 && cells[n].Occupied?
    ensures |Scan(cells, n + 1).pieces| == |Scan(cells, n).pieces| + 1
  {
    ScanIsPlacedBelow(cells, n);
    PassOccupied(cells, n);
  }

  /** Passing a run of empty squares changes nothing. */
  lemma {:induction false} PassEmptyRun(cells: seq<Cell>, n: int, d: nat)
    requires |cells| == 64 && 0 <= n && n + d <= 64
    requires forall s :: n <= s < n + d ==> cells[s] == Empty
    ensures Scan(cells, n + d) == Scan(cells, n)
    decreases d
  {
    if d > 0 {
      PassEmptyRun(cells, n, d - 1);
    }
  }

  /** The number of piece letters in a string. */
  function Letters(s: string): nat {
    if s == [] then 0 else (if IsAlpha([s[0]]) then 1 else 0) + Letters(s[1..])
  }

  /** The number of piece letters in groups r .. 7. */
  function GroupLetters(groups: seq<string>, r: nat): nat
    requires |groups| == 8 && r <= 8
    decreases 8 - r
  {
    if r == 8 then 0 else Letters(groups[r]) + GroupLetters(groups, r + 1)
  }

  /** The board from square r * 8 on is groups r .. 7. */
  lemma {:induction false} BoardSuffix(groups: seq<string>, r: nat)
    requires RowsOfEight(groups) && r <= 8
    ensures Board(groups)[r * 8..] == BoardFrom(groups, r)
  {
    if r > 0 {
      var cells := Board(groups);
      var a := (r - 1) * 8;
      BoardSuffix(groups, r - 1);
      assert |Expand(groups[r - 1])| == 8;
      DropDrop(cells, a, 8);
      DropConcat(Expand(groups[r - 1]), BoardFrom(groups, r));
      assert a + 8 == r * 8;
    }
  }

  /** Square sq of the board is file sq % 8 of group sq / 8. */
  lemma BoardSquare(groups: seq<string>, sq: Square)
    requires RowsOfEight(groups)
    ensures Board(groups)[sq] == Expand(groups[sq / 8])[sq % 8]
  {
    var r := sq / 8;
    BoardSuffix(groups, r);
    BoardFromLength(groups, r + 1);
    assert Board(groups)[sq] == Board(groups)[r * 8..][sq % 8];
  }

  /** A placement group read from the front describes its first character's squares, then the
      rest's. */
  lemma ExpandCons(t: string)
    requires t != []
    ensures Expand(t) == CharCells(t[0]) + Expand(t[1..])
  {
  }

  /** Every character of t is a placement character. */
  predicate AllPlacement(t: string) {
    forall k :: 0 <= k < |t| ==> IsPlacementChar(t[k])
  }

  /** What the next character t[0], read with the cursor at file col of row r, tells about the
      board: the squares it covers and the cursor after it. */
  lemma WalkStep(cells: seq<Cell>, r: int, t: string, col: nat) returns (col': nat)
    requires |cells| == 64 && 0 <= r < 8 && t != [] && col <= 8
    requires AllPlacement(t)
    requires cells[r * 8 + col..r * 8 + 8] == Expand(t)
    ensures AllPlacement(t[1..])
    ensures col' <= 8 && cells[r * 8 + col'..r * 8 + 8] == Expand(t[1..])
    ensures IsDigit([t[0]]) ==>
              col' == col + DigitValue(t[0])
              && forall s :: r * 8 + col <= s < r * 8 + col + DigitValue(t[0]) ==> cells[s] == Empty
    ensures !IsDigit([t[0]]) ==>
              col' == col + 1 && col < 8 && IsAlpha([t[0]])
              && IsPieceLetterLower(ToLowerChar(t[0]))
              && cells[r * 8 + col] == Occupied(ColorOfLetter(t[0]), RankOfLetter(ToLowerChar(t[0])).value)
  {
    var ch := t[0];
    var cc := CharCells(ch);
    var n := r * 8 + col;
    var rest := cells[n..r * 8 + 8];
    assert rest == cc + Expand(t[1..]);
    assert IsPlacementChar(t[0]);
    CharCellsLength(ch);
    col' := col + |cc|;
    assert cells[r * 8 + col'..r * 8 + 8] == rest[|cc|..];
    if IsDigit([ch]) {
      forall s | n <= s < n + |cc| ensures cells[s] == Empty {
        assert cells[s] == rest[s - n];
      }
    } else {
      assert cells[n] == rest[0];
    }
  }

  /** A digit moves the cursor from square n to square n' over empty squares and stores
      nothing. */
  lemma PlaceDigit(cells: seq<Cell>, t: string, r: int, col: nat, col': nat, n: int, n': int)
    requires |cells| == 64 && 0 <= r < 8 && t != [] && IsDigit([t[0]])
    requires col' == col + DigitValue(t[0]) <= 8 && n == r * 8 + col && n' == r * 8 + col'
    requires forall s :: r * 8 + col <= s < r * 8 + col + DigitValue(t[0]) ==> cells[s] == Empty
    ensures Scan(cells, n') == Scan(cells, n)
    ensures PlaceRow(t, r, col, Scan(cells, n)) == PlaceRow(t[1..], r, col', Scan(cells, n'))
  {
    PassEmptyRun(cells, n, DigitValue(t[0]));
  }

  /** A letter stores its piece at the cursor's square n and moves the cursor one file. */
  lemma PlaceLetter(cells: seq<Cell>, t: string, r: int, col: nat, col': nat, n: int, n': int)
    requires |cells| == 64 && 0 <= r < 8 && t != [] && !IsDigit([t[0]]) && col < 8
    requires col' == col + 1 && n == r * 8 + col && n' == r * 8 + col'
    requires IsPieceLetterLower(ToLowerChar(t[0]))
    requires cells[n] == Occupied(ColorOfLetter(t[0]), RankOfLetter(ToLowerChar(t[0])).value)
    ensures PlaceRow(t, r, col, Scan(cells, n)) == PlaceRow(t[1..], r, col', Scan(cells, n'))
    ensures |Scan(cells, n').pieces| == |Scan(cells, n).pieces| + 1
  {
    SquareOfRowFile(r, col);
    ScanCount(cells, n);
    assert n' == n + 1;
  }

  /** The inner loop over the characters t still to read in row r, with the cursor at file col
      (square n) and the rest of the row being what t describes, stores exactly the pieces of
      the rest of the row. */
  lemma {:induction false} PlaceRowWalk(cells: seq<Cell>, r: int, t: string, col: nat, n: int)
    requires |cells| == 64 && 0 <= r < 8 && col <= 8 && n == r * 8 + col && AllPlacement(t)
    requires cells[n..r * 8 + 8] == Expand(t)
    ensures PlaceRow(t, r, col, Scan(cells, n)) == Success(Scan(cells, r * 8 + 8))
    decreases |t|
  {
    if t == [] {
      assert |cells[n..r * 8 + 8]| == 0;
    } else {
      var col' := WalkStep(cells, r, t, col);
      var n' := r * 8 + col';
      if IsDigit([t[0]]) {
        PlaceDigit(cells, t, r, col, col', n, n');
      } else {
        PlaceLetter(cells, t, r, col, col', n, n');
      }
      PlaceRowWalk(cells, r, t[1..], col', n');
    }
  }

  /** The same walk stores one piece per letter. */
  lemma {:induction false} PieceCountWalk(cells: seq<Cell>, r: int, t: string, col: nat, n: int)
    requires |cells| == 64 && 0 <= r < 8 && col <= 8 && n == r * 8 + col && AllPlacement(t)
    requires cells[n..r * 8 + 8] == Expand(t)
    ensures |Scan(cells, r * 8 + 8).pieces| == |Scan(cells, n).pieces| + Letters(t)
    decreases |t|
  {
    if t == [] {
      assert |cells[n..r * 8 + 8]| == 0;
    } else {
      var col' := WalkStep(cells, r, t, col);
      var n' := r * 8 + col';
      if IsDigit([t[0]]) {
        PlaceDigit(cells, t, r, col, col', n, n');
      } else {
        PlaceLetter(cells, t, r, col, col', n, n');
      }
      PieceCountWalk(cells, r, t[1..], col', n');
    }
  }

  /** Row r of the board is what group r describes. */
  lemma RowSlice(groups: seq<string>, r: nat)
    requires RowsOfEight(groups) && r < 8
    ensures Board(groups)[r * 8..r * 8 + 8] == Expand(groups[r])
  {
    var cells := Board(groups);
    BoardSuffix(groups, r);
    var suffix := cells[r * 8..];
    assert suffix == Expand(groups[r]) + BoardFrom(groups, r + 1);
    assert |Expand(groups[r])| == 8;
    assert suffix[..8] == cells[r * 8..r * 8 + 8];
  }

  /** The inner loop over group r of a board stores exactly that row's pieces. */
  lemma RowWalk(groups: seq<string>, r: nat)
    requires PlacementRows(groups) && RowsOfEight(groups) && r < 8
    ensures PlaceRow(groups[r], r, 0, Scan(Board(groups), r * 8)) == Success(Scan(Board(groups), r * 8 + 8))
  {
    RowSlice(groups, r);
    assert IsRankGroup(groups[r]);
    PlaceRowWalk(Board(groups), r, groups[r], 0, r * 8);
  }

  /** ... one piece per letter of the group. */
  lemma RowCount(groups: seq<string>, r: nat)
    requires PlacementRows(groups) && RowsOfEight(groups) && r < 8
    ensures |Scan(Board(groups), r * 8 + 8).pieces| == |Scan(Board(groups), r * 8).pieces| + Letters(groups[r])
  {
    RowSlice(groups, r);
    assert IsRankGroup(groups[r]);
    PieceCountWalk(Board(groups), r, groups[r], 0, r * 8);
  }

  /** The outer loop from row r on stores exactly the pieces of the board from square r * 8 on,
      one per letter of groups r .. 7. */
  lemma {:induction false} PlaceRowsWalk(groups: seq<string>, r: nat)
    requires PlacementRows(groups) && RowsOfEight(groups) && r <= 8
    ensures PlaceRows(groups, r, Scan(Board(groups), r * 8)) == Success(Scan(Board(groups), 64))
    ensures |Scan(Board(groups), 64).pieces| == |Scan(Board(groups), r * 8).pieces| + GroupLetters(groups, r)
    decreases 8 - r
  {
    if r < 8 {
      RowWalk(groups, r);
      RowCount(groups, r);
      PlaceRowsWalk(groups, r + 1);
      assert (r + 1) * 8 == r * 8 + 8;
    }
  }

  lemma SplitPlacement(g: string, j: nat)
    requires AllPlacement(g) && j <= |g|
    ensures AllPlacement(g[..j]) && AllPlacement(g[j..]) && g == g[..j] + g[j..]
  {
    assert forall k :: 0 <= k < j ==> g[..j][k] == g[k];
    assert forall k :: 0 <= k < |g| - j ==> g[j..][k] == g[j + k];
  }

  /** The squares character j of a group covers start at the file `Units` counts for the
      characters before it. */
  lemma ExpandAt(g: string, j: nat)
    requires j < |g| && AllPlacement(g[..j])
    ensures RunAt(Expand(g), Units(g[..j]), CharCells(g[j]))
  {
    ExpandLength(g[..j]);
    ExpandSplit(g, j);
    MiddleOfConcat(Expand(g[..j]), CharCells(g[j]), Expand(g[j + 1..]));
  }

  /** The squares of a group: those before character j, those of j, those after it. */
  lemma ExpandSplit(g: string, j: nat)
    requires j < |g|
    ensures Expand(g) == Expand(g[..j]) + CharCells(g[j]) + Expand(g[j + 1..])
  {
    TakeDrop(g, j);
    ExpandAppend(g[..j], g[j..]);
    ExpandCons(g[j..]);
  }

  /** The squares of cells from lo on are cc. */
  predicate RunAt(cells: seq<Cell>, lo: nat, cc: seq<Cell>) {
    lo + |cc| <= |cells| && cells[lo..lo + |cc|] == cc
  }

  /** A run cc inside a slice e of cells sits at the sum of the two offsets. */
  lemma SliceWithin(cells: seq<Cell>, lo: nat, n: nat, e: seq<Cell>, f: nat, cc: seq<Cell>)
    requires lo + n <= |cells| && cells[lo..lo + n] == e && RunAt(e, f, cc)
    ensures f + |cc| <= n && RunAt(cells, lo + f, cc)
  {
    SliceOfSlice(cells, lo, lo + n, f, |cc|);
  }

  /** Character j of a group, read as row r of the board: a letter occupies the square of its
      file, a digit leaves its files empty. */
  lemma RowCharAt(cells: seq<Cell>, r: nat, g: string, j: nat)
    requires |cells| == 64 && r < 8 && j < |g| && AllPlacement(g[..j]) && IsPlacementChar(g[j])
    requires cells[r * 8..r * 8 + 8] == Expand(g)
    ensures Units(g[..j]) + CharUnit(g[j]) <= 8 && CellsShowChar(cells, r * 8 + Units(g[..j]), g[j])
  {
    RowCharRun(cells, r, g, j);
    RowCharShow(cells, r * 8 + Units(g[..j]), g[j]);
  }

  /** A run of squares equal to what x describes shows x. */
  lemma RowCharShow(cells: seq<Cell>, lo: nat, x: char)
    requires IsPlacementChar(x) && RunAt(cells, lo, CharCells(x))
    ensures |CharCells(x)| == CharUnit(x) && lo + CharUnit(x) <= |cells| && CellsShowChar(cells, lo, x)
  {
    CharCellsLength(x);
    CellsOfChar(cells, lo, x);
  }

  /** Character j of a group, read as row r of the board, covers the squares from its file
      on. */
  lemma RowCharRun(cells: seq<Cell>, r: nat, g: string, j: nat)
    requires |cells| == 64 && r < 8 && j < |g| && AllPlacement(g[..j])
    requires cells[r * 8..r * 8 + 8] == Expand(g)
    ensures Units(g[..j]) + |CharCells(g[j])| <= 8 && RunAt(cells, r * 8 + Units(g[..j]), CharCells(g[j]))
  {
    ExpandAt(g, j);
    SliceWithin(cells, r * 8, 8, Expand(g), Units(g[..j]), CharCells(g[j]));
  }

  /** The squares from lo on show placement character x: a letter's piece on square lo, or the
      empty squares a digit counts. */
  predicate CellsShowChar(cells: seq<Cell>, lo: nat, x: char)
    requires IsPlacementChar(x) && lo + CharUnit(x) <= |cells|
  {
    (IsAlpha([x]) ==> cells[lo] == Occupied(ColorOfLetter(x), RankOfLetter(ToLowerChar(x)).value))
    && (IsDigit([x]) ==> forall sq :: lo <= sq < lo + DigitValue(x) ==> cells[sq] == Empty)
  }

  /** The squares from lo on that placement character x describes. */
  lemma CellsOfChar(cells: seq<Cell>, lo: nat, x: char)
    requires IsPlacementChar(x) && RunAt(cells, lo, CharCells(x))
    ensures lo + CharUnit(x) <= |cells| && CellsShowChar(cells, lo, x)
  {
    var cc := CharCells(x);
    CharCellsLength(x);
    RunCells(cells, lo, cc);
    if IsDigit([x]) {
      forall sq | lo <= sq < lo + DigitValue(x) ensures cells[sq] == Empty {
        assert cells[lo + (sq - lo)] == cc[sq - lo];
      }
    } else {
      assert cells[lo + 0] == cc[0];
    }
  }

  /** A slice that equals cc, read square by square. */
  lemma RunCells(cells: seq<Cell>, lo: nat, cc: seq<Cell>)
    requires lo + |cc| <= |cells| && cells[lo..lo + |cc|] == cc
    ensures forall k :: 0 <= k < |cc| ==> cells[lo + k] == cc[k]
  {
    forall k | 0 <= k < |cc| ensures cells[lo + k] == cc[k] {
      assert cells[lo..lo + |cc|][k] == cells[lo + k];
    }
  }

  /** What validation guarantees about group r: row r of the board is what it describes, and
      its characters are placement characters. */
  lemma ValidatedRow(fen: string, r: nat, j: nat)
    requires Validation(fen) == None
    requires r < |RankGroups(fen)| && j < |RankGroups(fen)[r]|
    ensures var g := RankGroups(fen)[r];
      r < 8 && AllPlacement(g[..j]) && IsPlacementChar(g[j])
      && RowsOfEight(RankGroups(fen)) && Board(RankGroups(fen))[r * 8..r * 8 + 8] == Expand(g)
  {
    ValidatedShape(fen);
    var groups := RankGroups(fen);
    var g := groups[r];
    assert AllPlacement(g) by {
      assert IsRankGroup(g);
    }
    SplitPlacement(g, j);
    RowSlice(groups, r);
  }

  /** Everything `parseFEN` does, stated on the FEN: the error of `validateFEN` if there is one,
      otherwise the position the FEN describes. In particular the walk never throws on a FEN that
      passed validation. */
  lemma ParseResultIsBoard(fen: string)
    ensures ParseResult(fen) == (match Validation(fen)
                                 case Some(e) => Failure(e)
                                 case None => Success(FenBoard(fen)))
  {
    if Validation(fen) == None {
      ValidatedShape(fen);
      var groups := RankGroups(fen);
      PlaceRowsWalk(groups, 0);
      ScanIsPlacedBelow(Board(groups), 64);
    }
  }

  /** `parseFEN` throws exactly when `validateFEN` reports an error, and throws that error. */
  lemma ParseFailsIff(fen: string)
    ensures ParseResult(fen).Failure? <==> Validation(fen).Some?
    ensures ParseResult(fen).Failure? ==> ParseResult(fen).error == Validation(fen).value
  {
    ParseResultIsBoard(fen);
  }

  /** The dictionary holds one piece per letter of the placement field. */
  lemma FenBoardPieceCount(fen: string)
    requires Validation(fen) == None
    ensures |FenBoard(fen).pieces| == GroupLetters(RankGroups(fen), 0)
  {
    ValidatedShape(fen);
    var groups := RankGroups(fen);
    PlaceRowsWalk(groups, 0);
    ScanIsPlacedBelow(Board(groups), 64);
  }

  /** Letter j of group r is stored under the square of its row and file, with its colour (upper
      case white) and rank; the files a digit covers hold no piece. */
  lemma FenBoardCharAt(fen: string, r: nat, j: nat)
    requires Validation(fen) == None
    requires r < |RankGroups(fen)| && j < |RankGroups(fen)[r]|
    ensures r < 8 && CharPlaced(FenBoard(fen).pieces, r, RankGroups(fen)[r], j)
  {
    ValidatedRow(fen, r, j);
    FenBoardPieces(fen);
    PlacedCharAt(Board(RankGroups(fen)), r, RankGroups(fen)[r], j);
  }

  /** The dictionary of a parsed position is the one the walk builds from the whole board. */
  lemma FenBoardPieces(fen: string)
    requires Validation(fen) == None
    ensures RowsOfEight(RankGroups(fen)) && FenBoard(fen).pieces == PiecesBelow(Board(RankGroups(fen)), 64)
  {
    ValidatedShape(fen);
  }

  /** Character j of group g, read as row r, is recorded in `pieces`: a piece letter as a piece
      of its colour and rank on the square of its file, a digit as that many absent squares. */
  predicate CharPlaced(pieces: map<Square, Piece>, r: nat, g: string, j: nat)
    requires j < |g|
  {
    var f := Units(g[..j]);
    f + CharUnit(g[j]) <= 8
    && (IsAlpha([g[j]]) ==>
          r * 8 + f in pieces
          && pieces[r * 8 + f].color == ColorOfLetter(g[j])
          && RankOfLetter(ToLowerChar(g[j])) == Some(pieces[r * 8 + f].rank)
          && pieces[r * 8 + f].row == r && pieces[r * 8 + f].col == f)
    && (IsDigit([g[j]]) ==>
          forall sq :: r * 8 + f <= sq < r * 8 + f + DigitValue(g[j]) ==> sq !in pieces)
  }

  /** Character j of the group of row r, as the walk's dictionary records it. */
  lemma PlacedCharAt(cells: seq<Cell>, r: nat, g: string, j: nat)
    requires |cells| == 64 && r < 8 && j < |g| && AllPlacement(g[..j]) && IsPlacementChar(g[j])
    requires cells[r * 8..r * 8 + 8] == Expand(g)
    ensures CharPlaced(PiecesBelow(cells, 64), r, g, j)
  {
    RowCharAt(cells, r, g, j);
    var f := Units(g[..j]);
    if IsAlpha([g[j]]) {
      PlacedLetterAt(cells, r, f, g[j]);
    }
    if IsDigit([g[j]]) {
      PlacedDigitAt(cells, r * 8 + f, g[j]);
    }
  }

  /** A letter shown on the square of row r and file f is recorded there. */
  lemma PlacedLetterAt(cells: seq<Cell>, r: nat, f: nat, x: char)
    requires |cells| == 64 && r < 8 && IsPlacementChar(x) && IsAlpha([x])
    requires f + CharUnit(x) <= 8 && CellsShowChar(cells, r * 8 + f, x)
    ensures var pieces := PiecesBelow(cells, 64);
      r * 8 + f in pieces
      && pieces[r * 8 + f].color == ColorOfLetter(x)
      && RankOfLetter(ToLowerChar(x)) == Some(pieces[r * 8 + f].rank)
      && pieces[r * 8 + f].row == r && pieces[r * 8 + f].col == f
  {
    SquareOfRowFile(r, f);
    OccupiedPlaced(cells, r * 8 + f);
  }

  /** The squares a digit shows as empty hold no piece. */
  lemma PlacedDigitAt(cells: seq<Cell>, lo: nat, x: char)
    requires |cells| == 64 && IsPlacementChar(x) && IsDigit([x])
    requires lo + CharUnit(x) <= 64 && CellsShowChar(cells, lo, x)
    ensures forall sq :: lo <= sq < lo + DigitValue(x) ==> sq !in PiecesBelow(cells, 64)
  {
    forall sq | lo <= sq < lo + DigitValue(x) ensures sq !in PiecesBelow(cells, 64) {
      EmptyNotPlaced(cells, sq);
    }
  }

  lemma OccupiedPlaced(cells: seq<Cell>, sq: Square)
    requires |cells| == 64 && cells[sq].Occupied?
    ensures sq in PiecesBelow(cells, 64) && PiecesBelow(cells, 64)[sq] == PieceAt(cells, sq)
  {
  }

  lemma EmptyNotPlaced(cells: seq<Cell>, sq: Square)
    requires |cells| == 64 && cells[sq] == Empty
    ensures sq !in PiecesBelow(cells, 64)
  {
  }

  /** The king square the walk keeps for `color`. */
  function KingOf(b: BoardData, color: PieceColor): Option<Square> {
    if color == White then b.whiteKing else b.blackKing
  }

  /** The letter of the king of `color`. */
  function KingLetter(color: PieceColor): char {
    if color == White then 'K' else 'k'
  }

  /** k names a king of `color` in `pieces`, and no later square holds another one. */
  predicate IsLastKing(pieces: map<Square, Piece>, k: Option<Square>, color: PieceColor) {
    k.Some? && k.value in pieces && pieces[k.value].color == color && pieces[k.value].rank == King
    && forall s :: s in pieces && k.value < s ==> !(pieces[s].color == color && pieces[s].rank == King)
  }

  /** Once a board holds a king of `color`, the walk's king square is the last such king. */
  lemma PlacedKing(cells: seq<Cell>, color: PieceColor, sq: Square)
    requires |cells| == 64 && cells[sq] == Occupied(color, King)
    ensures var p := PlacedBelow(cells, 64);
      IsLastKing(p.pieces, if color == White then p.whiteKing else p.blackKing, color)
  {
    LastKingIsLast(cells, color, 64);
  }

  /** A validated FEN has a king letter of each colour in some group. */
  lemma KingLetterInGroup(fen: string, color: PieceColor) returns (r: nat, j: nat)
    requires Validation(fen) == None
    ensures r < |RankGroups(fen)| && j < |RankGroups(fen)[r]| && RankGroups(fen)[r][j] == KingLetter(color)
  {
    var groups := RankGroups(fen);
    var x := KingLetter(color);
    assert x in Placement(fen);
    JoinSplit(Placement(fen), '/');
    InJoin(groups, '/', x);
    var i :| 0 <= i < |groups| && x in groups[i];
    var k :| 0 <= k < |groups[i]| && groups[i][k] == x;
    r, j := i, k;
  }

  /** After validation each colour has a king: `whiteKing` and `blackKing` are the squares of the
      last king of their colour in the order of the walk. */
  lemma FenBoardKing(fen: string, color: PieceColor)
    requires Validation(fen) == None
    ensures IsLastKing(FenBoard(fen).pieces, KingOf(FenBoard(fen), color), color)
  {
    var sq := KingOnBoard(fen, color);
    PlacedKing(Board(RankGroups(fen)), color, sq);
    FenBoardPlaced(fen, color);
  }

  /** The dictionary and the king squares of a parsed position are the walk's. */
  lemma FenBoardPlaced(fen: string, color: PieceColor)
    requires Validation(fen) == None
    ensures RowsOfEight(RankGroups(fen))
    ensures var p := PlacedBelow(Board(RankGroups(fen)), 64);
      FenBoard(fen).pieces == p.pieces
      && KingOf(FenBoard(fen), color) == (if color == White then p.whiteKing else p.blackKing)
  {
    ValidatedShape(fen);
  }

  /** The king letter of a colour names a king of that colour. */
  lemma KingLetterCell(color: PieceColor)
    ensures var x := KingLetter(color);
      IsAlpha([x]) && ColorOfLetter(x) == color && RankOfLetter(ToLowerChar(x)) == Some(King)
  {
  }

  /** The board of a validated FEN holds a king of each colour. */
  lemma KingOnBoard(fen: string, color: PieceColor) returns (sq: Square)
    requires Validation(fen) == None
    ensures RowsOfEight(RankGroups(fen)) && Board(RankGroups(fen))[sq] == Occupied(color, King)
  {
    var r, j := KingLetterInGroup(fen, color);
    ValidatedRow(fen, r, j);
    sq := KingInRow(Board(RankGroups(fen)), r, RankGroups(fen)[r], j, color);
  }

  /** A king letter in the group of row r puts a king of its colour on the board. */
  lemma KingInRow(cells: seq<Cell>, r: nat, g: string, j: nat, color: PieceColor) returns (sq: Square)
    requires |cells| == 64 && r < 8 && j < |g| && AllPlacement(g[..j]) && IsPlacementChar(g[j])
    requires cells[r * 8..r * 8 + 8] == Expand(g) && g[j] == KingLetter(color)
    ensures cells[sq] == Occupied(color, King)
  {
    RowCharAt(cells, r, g, j);
    KingLetterCell(color);
    sq := r * 8 + Units(g[..j]);
  }

  /** The side to move, the en-passant field and the rest of the record: white exactly for "w"
      and black exactly for "b", no target exactly for "-" and otherwise the named square, no
      legal moves, and the FEN kept verbatim. */
  lemma FenBoardSideAndTarget(fen: string)
    requires Validation(fen) == None
    ensures var fields := Split(fen, ' ');
      var b := FenBoard(fen);
      |fields| == 6 && b.fen == fen && b.legalMoves == map[]
      && (b.turn == White <==> fields[1] == "w") && (b.turn == Black <==> fields[1] == "b")
      && (b.enPassant.None? <==> fields[3] == "-")
      && (b.enPassant.Some? ==> SquareName(b.enPassant.value) == fields[3])
  {
    ValidatedShape(fen);
    assert MatchesFenRegex(fen);
  }

  /** The side to move is the colour whose enum value is the side field. */
  lemma FenBoardSideIsCode(fen: string)
    requires Validation(fen) == None
    ensures |Split(fen, ' ')| == 6 && [FenBoard(fen).turn.Code()] == Split(fen, ' ')[1]
  {
    FenBoardSideAndTarget(fen);
  }

  /** The four castling rights are exactly the letters of the castling field: none for "-". */
  lemma FenBoardCastling(fen: string)
    requires Validation(fen) == None
    ensures var fields := Split(fen, ' ');
      var b := FenBoard(fen);
      |fields| == 6
      && (fields[2] == "-" ==>
            !b.whiteShortCastle && !b.whiteLongCastle && !b.blackShortCastle && !b.blackLongCastle)
      && (fields[2] != "-" ==>
            fields[2] == CastlingLetters(b.whiteShortCastle, b.whiteLongCastle, b.blackShortCastle, b.blackLongCastle))
  {
    ValidatedShape(fen);
    var fields := Split(fen, ' ');
    assert MatchesCastling(fields[2]) by {
      assert MatchesFenRegex(fen);
    }
    if fields[2] != "-" {
      CastlingFlagsAreLetters(fields[2]);
    }
  }

  /** The two clocks are the numbers their fields name: printing them back gives the field when
      it has no superfluous leading zero. */
  lemma FenBoardClocks(fen: string)
    requires Validation(fen) == None
    ensures var fields := Split(fen, ' ');
      var b := FenBoard(fen);
      |fields| == 6
      && (IsCanonicalDecimal(fields[4]) ==> NatToString(b.halfMove) == fields[4])
      && (IsCanonicalDecimal(fields[5]) ==> NatToString(b.fullMove) == fields[5])
  {
    ValidatedShape(fen);
    var fields := Split(fen, ' ');
    if IsCanonicalDecimal(fields[4]) {
      NatToStringOfDecimalValue(fields[4]);
    }
    if IsCanonicalDecimal(fields[5]) {
      NatToStringOfDecimalValue(fields[5]);
    }
  }
}
