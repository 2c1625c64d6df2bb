/** `boardDataToFEN` of functions/game/FEN.ts: the eight rows printed as runs of empty squares
    and piece letters, then the side to move, the castling rights, the en-passant target and the
    two clocks, joined by spaces. */
module FenSerialize {
  import opened Wrappers
  import opened Seqs
  import opened Strings
  import opened Types
  import opened Misc
  import opened FenGrammar
  import opened FenValidate
  import opened FenParse

  /** `piece.rank.toString()`, lower-cased for black. */
  function CellLetter(color: PieceColor, rank: PieceRank): char {
    var ch := rank.Code();
    if color == White then ch else ToLowerChar(ch)
  }

  /** What `data.pieces[Squares[square]]` says about a square. */
  function CellOf(pieces: map<Square, Piece>, sq: Square): Cell {
    if sq in pieces then Occupied(pieces[sq].color, pieces[sq].rank) else Empty
  }

  /** The eight squares of row `row`, file a first. */
  function RowCells(pieces: map<Square, Piece>, row: nat): (cells: seq<Cell>)
    requires row < 8
    ensures |cells| == 8
    ensures forall col :: 0 <= col < 8 ==> cells[col] == CellOf(pieces, row * 8 + col)
  {
    seq(8, col requires 0 <= col < 8 => CellOf(pieces, row * 8 + col))
  }

  /** `if (c != 0) rank += c.toString()`: the pending run of c empty squares. */
  function Flush(c: nat): string {
    if c != 0 then NatToString(c) else ""
  }

  /** The rest of a row printed with c empty squares still pending. */
  function EncodeRun(cells: seq<Cell>, c: nat): string
    decreases |cells|
  {
    if cells == [] then Flush(c)
    else match cells[0]
      case Empty => EncodeRun(cells[1..], c + 1)
      case Occupied(color, rank) => Flush(c) + [CellLetter(color, rank)] + EncodeRun(cells[1..], 0)
  }

  /** The text of one row: `ranks[row]`. */
  function EncodeRank(cells: seq<Cell>): string {
    EncodeRun(cells, 0)
  }

  /** The eight row texts, row 0 (rank 8) first. */
  function Ranks(pieces: map<Square, Piece>): (ranks: seq<string>)
    ensures |ranks| == 8
    ensures forall r :: 0 <= r < 8 ==> ranks[r] == EncodeRank(RowCells(pieces, r))
  {
    seq(8, r requires 0 <= r < 8 => EncodeRank(RowCells(pieces, r)))
  }

  /** `fields[1]` */
  function SideField(turn: PieceColor): string {
    if turn == White then "w" else "b"
  }

  /** `fields[2]`: "-" when no right is left, otherwise the letters of the rights held. */
  function CastlingField(wk: bool, wq: bool, bk: bool, bq: bool): string {
    if !(wk || wq || bk || bq) then "-" else CastlingLetters(wk, wq, bk, bq)
  }

  /** `fields[3]` as written: `data.enPassant?.toString() ?? "-"`. The target is a `Square`
      enum value, a number, so its decimal text is printed. */
  function EnPassantField(ep: Option<Square>): string {
    match ep
    case None => "-"
    case Some(sq) => NatToString(sq)
  }

  /** `fields[3]` as intended: the square's name, which is what `parseFEN` reads back. */
  function EnPassantFieldIntended(ep: Option<Square>): string {
    match ep
    case None => "-"
    case Some(sq) => SquareName(sq)
  }

  /** The six fields around a given en-passant text. */
  function FieldsWith(data: BoardData, ep: string): seq<string> {
    [Join(Ranks(data.pieces), '/'),
     SideField(data.turn),
     CastlingField(data.whiteShortCastle, data.whiteLongCastle, data.blackShortCastle, data.blackLongCastle),
     ep,
     NatToString(data.halfMove),
     NatToString(data.fullMove)]
  }

  /** What `boardDataToFEN(data)` returns. */
  function Serialize(data: BoardData): string {
    Join(FieldsWith(data, EnPassantField(data.enPassant)), ' ')
  }

  /** `boardDataToFEN` with the en-passant target printed by name. */
  function SerializeIntended(data: BoardData): string {
    Join(FieldsWith(data, EnPassantFieldIntended(data.enPassant)), ' ')
  }

  /** `boardDataToFEN(data)` */
  method BoardDataToFen(data: BoardData) returns (fen: string)
    ensures fen == Serialize(data)
  {
    var ranks := new string[8];
    for row := 0 to 8
      invariant forall r :: 0 <= r < row ==> ranks[r] == EncodeRank(RowCells(data.pieces, r))
    {
      var rank := EncodeRow(data.pieces, row);
      ranks[row] := rank;
    }
    var fields := new string[6];
    fields[0] := Join(ranks[..], '/');
    fields[1] := SideField(data.turn);
    fields[2] := CastlingField(data.whiteShortCastle, data.whiteLongCastle, data.blackShortCastle, data.blackLongCastle);
    fields[3] := EnPassantField(data.enPassant);
    fields[4] := NatToString(data.halfMove);
    fields[5] := NatToString(data.fullMove);
    assert ranks[..] == Ranks(data.pieces);
    assert fields[..] == FieldsWith(data, EnPassantField(data.enPassant));
    fen := Join(fields[..], ' ');
  }

  /** The body of the row loop of `boardDataToFEN`: the text of row `row`. */
  method EncodeRow(pieces: map<Square, Piece>, row: nat) returns (rank: string)
    requires row < 8
    ensures rank == EncodeRank(RowCells(pieces, row))
    ensures NoAdjacentDigits(rank)
  {
    rank := "";
    var c: nat := 0;
    ghost var cells := RowCells(pieces, row);
    for col := 0 to 8
      invariant rank + EncodeRun(cells[col..], c) == EncodeRank(cells)
    {
      var square: Square := row * 8 + col;
      if square in pieces {
        var piece := pieces[square];
        ghost var before, pending := rank, c;
        if c != 0 {
          rank := rank + NatToString(c);
          c := 0;
        }
        assert rank == before + Flush(pending);
        var ch := piece.rank.Code();
        rank := rank + [if piece.color == White then ch else ToLowerChar(ch)];
        OccupiedStep(cells, col, pending, before, piece);
      } else {
        EmptyStep(cells, col, c);
        c := c + 1;
      }
    }
    if c != 0 {
      rank := rank + NatToString(c);
    }
    EncodeRankMinimal(cells);
  }

  /** One step of the row loop: an empty square adds to the pending run, an occupied one
      flushes the run and prints its letter. */
  lemma EncodeRunStep(cells: seq<Cell>, col: nat, c: nat)
    requires col < |cells|
    ensures cells[col] == Empty ==> EncodeRun(cells[col..], c) == EncodeRun(cells[col + 1..], c + 1)
    ensures cells[col].Occupied? ==>
              EncodeRun(cells[col..], c)
              == Flush(c) + [CellLetter(cells[col].color, cells[col].rank)] + EncodeRun(cells[col + 1..], 0)
  {
    assert cells[col..][0] == cells[col] && cells[col..][1..] == cells[col + 1..];
  }

  /** The loop step at an occupied square, stated on the text printed so far. */
  lemma OccupiedStep(cells: seq<Cell>, col: nat, c: nat, before: string, p: Piece)
    requires col < |cells| && cells[col] == Occupied(p.color, p.rank)
    ensures before + Flush(c) + [CellLetter(p.color, p.rank)] + EncodeRun(cells[col + 1..], 0)
            == before + EncodeRun(cells[col..], c)
  {
    EncodeRunStep(cells, col, c);
    ConcatAssoc(before, Flush(c), [CellLetter(p.color, p.rank)], EncodeRun(cells[col + 1..], 0));
  }

  /** The loop step at an empty square. */
  lemma EmptyStep(cells: seq<Cell>, col: nat, c: nat)
    requires col < |cells| && cells[col] == Empty
    ensures EncodeRun(cells[col..], c) == EncodeRun(cells[col + 1..], c + 1)
  {
    EncodeRunStep(cells, col, c);
  }

  /** A printed letter is a placement letter that `parseFEN` reads back as the same colour and
      rank. */
  lemma CellLetterReadsBack(color: PieceColor, rank: PieceRank)
    ensures var l := CellLetter(color, rank);
      IsPlacementChar(l) && IsAlpha([l]) && !IsDigit([l])
      && ColorOfLetter(l) == color && RankOfLetter(ToLowerChar(l)) == Some(rank)
      && CharCells(l) == [Occupied(color, rank)]
  {
    RankOfLetterOfCode(rank);
  }

  /** A placement letter is printed back as itself from the square it describes. */
  lemma LetterPrintsBack(x: char)
    requires IsPlacementChar(x) && !IsDigit([x])
    ensures RankOfLetter(ToLowerChar(x)).Some?
    ensures CellLetter(ColorOfLetter(x), RankOfLetter(ToLowerChar(x)).value) == x
  {
  }

  /** Skipping k empty squares adds k to the pending run. */
  lemma {:induction false} EncodeRunEmpties(k: nat, rest: seq<Cell>, c: nat)
    ensures EncodeRun(Empties(k) + rest, c) == EncodeRun(rest, c + k)
    decreases k
  {
    var cells := Empties(k) + rest;
    if k == 0 {
      assert cells == rest;
    } else {
      assert cells[0] == Empty;
      assert cells[1..] == Empties(k - 1) + rest;
      EncodeRunEmpties(k - 1, rest, c + 1);
      assert c + 1 + (k - 1) == c + k;
    }
  }

  /** A pending run of 1 .. 8 squares is printed as the digit its squares are read back from. */
  lemma FlushReadsBack(c: nat)
    requires c <= 8
    ensures AllPlacement(Flush(c)) && |Flush(c)| == (if c == 0 then 0 else 1)
    ensures Expand(Flush(c)) == Empties(c)
  {
    if c != 0 {
      var d := DigitChar(c);
      assert Flush(c) == [d];
      assert Expand([d]) == CharCells(d) + Expand([]);
    }
  }

  /** What a row prints is a string of placement characters no longer than the row (plus one
      for a pending run). */
  lemma {:induction false} EncodeRunPlacement(cells: seq<Cell>, c: nat)
    requires c + |cells| <= 8
    ensures AllPlacement(EncodeRun(cells, c))
    ensures |EncodeRun(cells, c)| <= |cells| + (if c == 0 then 0 else 1)
    decreases |cells|
  {
    FlushReadsBack(c);
    if cells != [] {
      match cells[0]
      case Empty =>
        EncodeRunPlacement(cells[1..], c + 1);
      case Occupied(color, rank) =>
        EncodeRunPlacement(cells[1..], 0);
        CellLetterReadsBack(color, rank);
        AllPlacementConcat(Flush(c), [CellLetter(color, rank)], EncodeRun(cells[1..], 0));
    }
  }

  lemma AllPlacementConcat(a: string, b: string, c: string)
    requires AllPlacement(a) && AllPlacement(b) && AllPlacement(c)
    ensures AllPlacement(a + b + c)
  {
    var s := a + b + c;
    forall k | 0 <= k < |s| ensures IsPlacementChar(s[k]) {
      if k < |a| {
        assert s[k] == a[k];
      } else if k < |a| + |b| {
        assert s[k] == b[k - |a|];
      } else {
        assert s[k] == c[k - |a| - |b|];
      }
    }
  }

  /** Reading back what a row prints with c squares pending gives those c empty squares, then
      the row. */
  lemma {:induction false} EncodeRunReadsBack(cells: seq<Cell>, c: nat)
    requires c + |cells| <= 8
    ensures Expand(EncodeRun(cells, c)) == Empties(c) + cells
    decreases |cells|
  {
    if cells == [] {
      FlushReadsBack(c);
      assert Empties(c) + cells == Empties(c);
    } else {
      EncodeRunReadsBack(cells[1..], if cells[0] == Empty then c + 1 else 0);
      if cells[0] == Empty {
        ReadsBackEmpty(cells, c);
      } else {
        ReadsBackOccupied(cells, c);
      }
    }
  }

  lemma ReadsBackEmpty(cells: seq<Cell>, c: nat)
    requires cells != [] && cells[0] == Empty && c + |cells| <= 8
    requires Expand(EncodeRun(cells[1..], c + 1)) == Empties(c + 1) + cells[1..]
    ensures Expand(EncodeRun(cells, c)) == Empties(c) + cells
  {
    assert Empties(c + 1) == Empties(c) + [Empty];
    assert cells == [Empty] + cells[1..];
  }

  lemma ReadsBackOccupied(cells: seq<Cell>, c: nat)
    requires cells != [] && cells[0].Occupied? && c + |cells| <= 8
    requires Expand(EncodeRun(cells[1..], 0)) == Empties(0) + cells[1..]
    ensures Expand(EncodeRun(cells, c)) == Empties(c) + cells
  {
    var l := [CellLetter(cells[0].color, cells[0].rank)];
    var rest := EncodeRun(cells[1..], 0);
    assert EncodeRun(cells, c) == Flush(c) + l + rest;
    ExpandThree(Flush(c), l, rest);
    FlushReadsBack(c);
    assert Expand(l) == [cells[0]] by {
      CellLetterReadsBack(cells[0].color, cells[0].rank);
      assert Expand(l) == CharCells(l[0]) + Expand([]);
    }
    assert Empties(0) + cells[1..] == cells[1..];
    ConsAssoc(Empties(c), cells);
  }

  lemma ExpandThree(a: string, b: string, c: string)
    ensures Expand(a + b + c) == Expand(a) + Expand(b) + Expand(c)
  {
    ExpandAppend(a + b, c);
    ExpandAppend(a, b);
  }

  /** Reading back a printed row gives the row. */
  lemma ExpandEncodeRank(cells: seq<Cell>)
    requires |cells| <= 8
    ensures Expand(EncodeRank(cells)) == cells
  {
    EncodeRunReadsBack(cells, 0);
    assert Empties(0) + cells == cells;
  }

  /** A printed row of eight squares is a rank group that passes the rank checks of
      `validateFEN` for any row in which it holds no pawn. */
  lemma EncodeRankIsGroup(cells: seq<Cell>)
    requires |cells| == 8
    ensures var g := EncodeRank(cells);
      IsRankGroup(g) && |g| <= 8 && Units(g) == 8 && CharError(g, 0, 0) == None
  {
    var g := EncodeRank(cells);
    EncodeRunPlacement(cells, 0);
    ExpandEncodeRank(cells);
    ExpandLength(g);
    CharErrorNoneForGroup(g, 0, 0);
  }

  /** No two digits in a row: the form `boardDataToFEN` prints, in which each run of empty
      squares is one digit. */
  predicate NoAdjacentDigits(g: string)
    decreases |g|
  {
    |g| < 2 || (!(IsDigit([g[0]]) && IsDigit([g[1]])) && NoAdjacentDigits(g[1..]))
  }

  /** A letter in front of a group without adjacent digits keeps it so. */
  lemma NoAdjacentDigitsAfterLetter(x: char, t: string)
    requires !IsDigit([x]) && NoAdjacentDigits(t)
    ensures NoAdjacentDigits([x] + t)
  {
    assert ([x] + t)[1..] == t;
  }

  /** The rest of a row printed with c empty squares pending has no two adjacent digits, and
      with a run pending it starts with that run's single digit and goes on with a letter. */
  lemma {:induction false} EncodeRunMinimal(cells: seq<Cell>, c: nat)
    requires c + |cells| <= 8
    ensures NoAdjacentDigits(EncodeRun(cells, c))
    ensures var s := EncodeRun(cells, c);
      c > 0 ==> |s| >= 1 && IsDigit([s[0]]) && (|s| == 1 || !IsDigit([s[1]]))
    decreases |cells|
  {
    if cells == [] {
      assert c > 0 ==> Flush(c) == [DigitChar(c)];
    } else if cells[0] == Empty {
      EncodeRunMinimal(cells[1..], c + 1);
    } else {
      var x := CellLetter(cells[0].color, cells[0].rank);
      var rest := EncodeRun(cells[1..], 0);
      CellLetterReadsBack(cells[0].color, cells[0].rank);
      EncodeRunMinimal(cells[1..], 0);
      NoAdjacentDigitsAfterLetter(x, rest);
      if c > 0 {
        var d := DigitChar(c);
        assert Flush(c) + [x] + rest == [d] + ([x] + rest);
        assert ([d] + ([x] + rest))[1] == x;
        assert ([d] + ([x] + rest))[1..] == [x] + rest;
      } else {
        assert Flush(c) + [x] + rest == [x] + rest;
      }
    }
  }

  /** Minimal run-length: a printed row never holds two adjacent digits, since each run of
      empty squares is printed as one number of at most 8. */
  lemma EncodeRankMinimal(cells: seq<Cell>)
    requires |cells| <= 8
    ensures NoAdjacentDigits(EncodeRank(cells))
  {
    EncodeRunMinimal(cells, 0);
  }

  /** All eight printed rows are in minimal run-length form. */
  lemma PrintedRanksMinimal(pieces: map<Square, Piece>)
    ensures forall r :: 0 <= r < 8 ==> NoAdjacentDigits(Ranks(pieces)[r])
  {
    forall r | 0 <= r < 8 ensures NoAdjacentDigits(Ranks(pieces)[r]) {
      EncodeRankMinimal(RowCells(pieces, r));
    }
  }

  /** A group without adjacent digits is printed back as itself from the squares it describes;
      here with c squares pending before it. */
  lemma {:induction false} EncodeRunOfExpand(g: string, c: nat)
    requires AllPlacement(g) && NoAdjacentDigits(g) && c <= 8
    requires c > 0 ==> g == [] || !IsDigit([g[0]])
    ensures EncodeRun(Expand(g), c) == Flush(c) + g
    decreases |g|
  {
    if g == [] {
      assert Expand(g) == [];
    } else {
      var x := g[0];
      assert IsPlacementChar(x);
      assert AllPlacement(g[1..]) by {
        assert forall k :: 0 <= k < |g[1..]| ==> g[1..][k] == g[k + 1];
      }
      assert NoAdjacentDigits(g[1..]);
      if IsDigit([x]) {
        EncodeRunOfExpand(g[1..], DigitValue(x));
        PrintsBackDigit(g);
      } else {
        EncodeRunOfExpand(g[1..], 0);
        PrintsBackLetter(g, c);
      }
    }
  }

  lemma PrintsBackDigit(g: string)
    requires g != [] && IsPlacementChar(g[0]) && IsDigit([g[0]]) && DigitValue(g[0]) <= 8
    requires EncodeRun(Expand(g[1..]), DigitValue(g[0])) == Flush(DigitValue(g[0])) + g[1..]
    ensures EncodeRun(Expand(g), 0) == g
  {
    var x := g[0];
    var d := DigitValue(x);
    EncodeRunEmpties(d, Expand(g[1..]), 0);
    assert Expand(g) == Empties(d) + Expand(g[1..]);
    assert DigitChar(d) == x;
    assert g == [x] + g[1..];
  }

  lemma PrintsBackLetter(g: string, c: nat)
    requires g != [] && IsPlacementChar(g[0]) && !IsDigit([g[0]])
    requires EncodeRun(Expand(g[1..]), 0) == Flush(0) + g[1..]
    ensures EncodeRun(Expand(g), c) == Flush(c) + g
  {
    var x := g[0];
    LetterPrintsBack(x);
    CharCellsLength(x);
    var cell := Occupied(ColorOfLetter(x), RankOfLetter(ToLowerChar(x)).value);
    var rest := Expand(g[1..]);
    assert Expand(g) == [cell] + rest;
    EncodeRunOccupied(cell, rest, c);
    assert EncodeRun(rest, 0) == g[1..];
    ConsAssoc(Flush(c), g);
  }

  /** An occupied square flushes the pending run and prints its letter. */
  lemma EncodeRunOccupied(cell: Cell, rest: seq<Cell>, c: nat)
    requires cell.Occupied?
    ensures EncodeRun([cell] + rest, c) == Flush(c) + [CellLetter(cell.color, cell.rank)] + EncodeRun(rest, 0)
  {
    assert ([cell] + rest)[0] == cell && ([cell] + rest)[1..] == rest;
  }

  /** A group without adjacent digits is printed back as itself. */
  lemma EncodeRankOfExpand(g: string)
    requires AllPlacement(g) && NoAdjacentDigits(g)
    ensures EncodeRank(Expand(g)) == g
  {
    EncodeRunOfExpand(g, 0);
  }

  /** A printed row is a string of placement characters, so it holds neither separator. */
  lemma RankTextShape(pieces: map<Square, Piece>, r: nat)
    requires r < 8
    ensures AllPlacement(Ranks(pieces)[r]) && ' ' !in Ranks(pieces)[r] && '/' !in Ranks(pieces)[r]
  {
    EncodeRunPlacement(RowCells(pieces, r), 0);
    var g := Ranks(pieces)[r];
  }

  /** The placement field splits back into the eight printed rows and holds no space. */
  lemma PlacementFieldShape(pieces: map<Square, Piece>)
    ensures Split(Join(Ranks(pieces), '/'), '/') == Ranks(pieces)
    ensures ' ' !in Join(Ranks(pieces), '/')
  {
    var ranks := Ranks(pieces);
    forall i | 0 <= i < 8 ensures ' ' !in ranks[i] && '/' !in ranks[i] {
      RankTextShape(pieces, i);
    }
    SplitJoin(ranks, '/');
    InJoin(ranks, '/', ' ');
  }

  /** `fields[1]` reads back as the side to move. */
  lemma SideFieldReadsBack(turn: PieceColor)
    ensures MatchesSide(SideField(turn)) && ' ' !in SideField(turn)
    ensures SideField(turn) == "w" <==> turn == White
  {
  }

  /** `fields[1]` is the enum value of the side to move. */
  lemma SideFieldIsCode(turn: PieceColor)
    ensures SideField(turn) == [turn.Code()]
  {
  }

  /** `fields[2]` matches the castling part of the grammar, is never empty, and holds each
      right's letter exactly when the right is held. */
  lemma CastlingFieldReadsBack(wk: bool, wq: bool, bk: bool, bq: bool)
    ensures var f := CastlingField(wk, wq, bk, bq);
      MatchesCastling(f) && f != "" && ' ' !in f
      && (f == "-" <==> !(wk || wq || bk || bq))
      && ('K' in f <==> wk) && ('Q' in f <==> wq) && ('k' in f <==> bk) && ('q' in f <==> bq)
  {
    if wk || wq || bk || bq {
      CastlingLettersMatch(wk, wq, bk, bq);
      CastlingLettersHold(wk, wq, bk, bq, ' ');
      CastlingLettersHold(wk, wq, bk, bq, '-');
      CastlingLettersHold(wk, wq, bk, bq, 'K');
      CastlingLettersHold(wk, wq, bk, bq, 'Q');
      CastlingLettersHold(wk, wq, bk, bq, 'k');
      CastlingLettersHold(wk, wq, bk, bq, 'q');
    }
  }

  /** A clock's text is a run of digits that `parseInt` reads back as the clock. */
  lemma ClockReadsBack(n: nat)
    ensures IsDigitString(NatToString(n)) && ' ' !in NatToString(n)
    ensures DecimalValue(NatToString(n)) == n
  {
    DecimalValueOfNatToString(n);
  }

  /** The intended `fields[3]` matches the grammar and `parseFEN` reads it back as the target. */
  lemma EnPassantIntendedReadsBack(ep: Option<Square>)
    ensures var f := EnPassantFieldIntended(ep);
      MatchesEnPassant(f) && ' ' !in f && EnPassantTarget(f) == ep
  {
    if ep.Some? {
      SquareOfNameOfSquareName(ep.value);
    }
  }

  /** As written, `fields[3]` for a target is a number, which the grammar never admits. */
  lemma EnPassantAsWrittenRejected(sq: Square)
    ensures var f := EnPassantField(Some(sq));
      !MatchesEnPassant(f) && ' ' !in f
  {
    var f := NatToString(sq);
    assert IsDigitChar(f[0]);
    ClockReadsBack(sq);
  }

  /** The six fields hold no space when the en-passant text holds none, so the FEN splits back
      into them, and its rank groups are the printed rows. */
  lemma SerializedFields(data: BoardData, ep: string)
    requires ' ' !in ep
    ensures var fields := FieldsWith(data, ep);
      var fen := Join(fields, ' ');
      Split(fen, ' ') == fields && RankGroups(fen) == Ranks(data.pieces)
  {
    var fields := FieldsWith(data, ep);
    PlacementFieldShape(data.pieces);
    SideFieldReadsBack(data.turn);
    CastlingFieldReadsBack(data.whiteShortCastle, data.whiteLongCastle, data.blackShortCastle, data.blackLongCastle);
    ClockReadsBack(data.halfMove);
    ClockReadsBack(data.fullMove);
    assert forall i :: 0 <= i < 6 ==> ' ' !in fields[i];
    SplitJoin(fields, ' ');
  }

  /** With a target field the grammar accepts, the printed FEN matches the grammar. */
  lemma PrintedFieldsMatch(data: BoardData, ep: string)
    requires MatchesEnPassant(ep) && ' ' !in ep
    ensures var fen := Join(FieldsWith(data, ep), ' ');
      MatchesFenRegex(fen) && Split(fen, ' ') == FieldsWith(data, ep)
      && RankGroups(fen) == Ranks(data.pieces)
  {
    var ranks := Ranks(data.pieces);
    SerializedFields(data, ep);
    PlacementFieldShape(data.pieces);
    forall r | 0 <= r < 8 ensures IsRankGroup(ranks[r]) {
      EncodeRankIsGroup(RowCells(data.pieces, r));
    }
    SideFieldReadsBack(data.turn);
    CastlingFieldReadsBack(data.whiteShortCastle, data.whiteLongCastle, data.blackShortCastle, data.blackLongCastle);
    ClockReadsBack(data.halfMove);
    ClockReadsBack(data.fullMove);
  }
}
