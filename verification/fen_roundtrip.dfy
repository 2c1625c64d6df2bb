/** How `parseFEN` and `boardDataToFEN` of functions/game/FEN.ts fit together: printing a parsed
    position gives a FEN that validates and parses back to the same position, and a FEN in the
    printed form is reproduced character for character. The en-passant field is the exception:
    as written it is printed as a square number, which no FEN admits. */
module FenRoundTrip {
  import opened Wrappers
  import opened Seqs
  import opened Strings
  import opened Types
  import opened Misc
  import opened FenGrammar
  import opened FenValidate
  import opened FenParse
  import opened FenSerialize

  /** The square a piece letter describes. */
  function LetterCell(x: char): Cell
    requires IsPlacementChar(x) && !IsDigit([x])
  {
    CharCellsLength(x);
    Occupied(ColorOfLetter(x), RankOfLetter(ToLowerChar(x)).value)
  }

  /** Two piece letters describe the same square only if they are the same letter. */
  lemma LetterCellInjective(x: char, y: char)
    requires IsPlacementChar(x) && !IsDigit([x]) && IsPlacementChar(y) && !IsDigit([y])
    ensures LetterCell(x) == LetterCell(y) ==> x == y
  {
    LetterPrintsBack(x);
    LetterPrintsBack(y);
  }

  /** What one placement character describes holds the square of letter x exactly when the
      character is x. */
  lemma LetterInCharCells(ch: char, x: char)
    requires IsPlacementChar(ch) && IsPlacementChar(x) && !IsDigit([x])
    ensures LetterCell(x) in CharCells(ch) <==> ch == x
  {
    CharCellsLength(ch);
    if !IsDigit([ch]) {
      LetterCellInjective(ch, x);
      assert CharCells(ch) == [LetterCell(ch)];
    }
  }

  /** A group holds the piece letter x exactly when the squares it describes hold that piece. */
  lemma {:induction false} LetterInExpand(g: string, x: char)
    requires AllPlacement(g) && IsPlacementChar(x) && !IsDigit([x])
    ensures x in g <==> LetterCell(x) in Expand(g)
    decreases |g|
  {
    if g != [] {
      assert AllPlacement(g[1..]) by {
        assert forall k :: 0 <= k < |g[1..]| ==> g[1..][k] == g[k + 1];
      }
      LetterInExpand(g[1..], x);
      assert IsPlacementChar(g[0]);
      LetterInCharCells(g[0], x);
      ExpandCons(g);
      InCons(g, x);
    }
  }

  /** Two groups that describe the same squares hold the same piece letters. */
  lemma SameLetters(g: string, h: string, x: char)
    requires AllPlacement(g) && AllPlacement(h) && Expand(g) == Expand(h)
    requires IsPlacementChar(x) && !IsDigit([x])
    ensures x in g <==> x in h
  {
    LetterInExpand(g, x);
    LetterInExpand(h, x);
  }

  /** `rank.toLowerCase().includes("p")`: a pawn of either colour. */
  lemma HasPawnLetters(g: string)
    ensures HasPawn(g) <==> 'p' in g || 'P' in g
  {
    var lower := ToLower(g);
    if 'p' in lower {
      var k :| 0 <= k < |lower| && lower[k] == 'p';
      assert g[k] == 'p' || g[k] == 'P';
    }
    if 'p' in g {
      var k :| 0 <= k < |g| && g[k] == 'p';
      assert lower[k] == 'p';
    }
    if 'P' in g {
      var k :| 0 <= k < |g| && g[k] == 'P';
      assert lower[k] == 'p';
    }
  }

  /** Two groups that describe the same squares agree on the back-rank pawn check. */
  lemma SamePawns(g: string, h: string)
    requires AllPlacement(g) && AllPlacement(h) && Expand(g) == Expand(h)
    ensures HasPawn(g) <==> HasPawn(h)
  {
    HasPawnLetters(g);
    HasPawnLetters(h);
    SameLetters(g, h, 'p');
    SameLetters(g, h, 'P');
  }

  /** Groups that describe the same rows describe the same board. */
  lemma {:induction false} BoardFromAgree(g1: seq<string>, g2: seq<string>, r: nat)
    requires |g1| == 8 && |g2| == 8 && r <= 8
    requires forall i :: 0 <= i < 8 ==> Expand(g1[i]) == Expand(g2[i])
    ensures BoardFrom(g1, r) == BoardFrom(g2, r)
    decreases 8 - r
  {
    if r < 8 {
      BoardFromAgree(g1, g2, r + 1);
    }
  }

  lemma BoardsAgree(g1: seq<string>, g2: seq<string>)
    requires RowsOfEight(g1) && RowsOfEight(g2)
    requires forall i :: 0 <= i < 8 ==> Expand(g1[i]) == Expand(g2[i])
    ensures Board(g1) == Board(g2)
  {
    BoardFromAgree(g1, g2, 0);
  }

  /** Row r of the dictionary of a board, as `boardDataToFEN` looks it up, is row r of the
      board. */
  lemma RowCellsOfBoard(cells: seq<Cell>, r: nat)
    requires |cells| == 64 && r < 8
    ensures RowCells(PiecesBelow(cells, 64), r) == cells[r * 8..r * 8 + 8]
  {
    var row := RowCells(PiecesBelow(cells, 64), r);
    var slice := cells[r * 8..r * 8 + 8];
    forall col | 0 <= col < 8 ensures row[col] == slice[col] {
      SquareOfRowFile(r, col);
      assert slice[col] == cells[r * 8 + col];
    }
  }

  /** Row r of a parsed position, as `boardDataToFEN` looks it up, is what group r describes. */
  lemma RowCellsOfFenBoard(fen: string, r: nat)
    requires Validation(fen) == None && r < 8 && r < |RankGroups(fen)|
    ensures RowCells(FenBoard(fen).pieces, r) == Expand(RankGroups(fen)[r])
  {
    ValidatedShape(fen);
    var groups := RankGroups(fen);
    RowCellsOfBoard(Board(groups), r);
    RowSlice(groups, r);
  }

  /** Row r printed from a parsed position describes the squares its group describes, and
      passes the rank checks of `validateFEN` that the group passed. */
  lemma ReprintedRow(fen: string, r: nat)
    requires Validation(fen) == None && r < 8
    ensures |RankGroups(fen)| == 8
    ensures var g := RankGroups(fen)[r];
      var h := Ranks(FenBoard(fen).pieces)[r];
      IsRankGroup(g) && IsRankGroup(h) && Expand(h) == Expand(g) && RankOk(h, r)
  {
    ValidatedShape(fen);
    ValidationAcceptsIff(fen);
    var g := RankGroups(fen)[r];
    assert RankOk(g, r);
    var cells := RowCells(FenBoard(fen).pieces, r);
    RowCellsOfFenBoard(fen, r);
    ExpandEncodeRank(cells);
    EncodeRankIsGroup(cells);
    SamePawns(g, EncodeRank(cells));
  }

  /** A piece letter the placement of a valid FEN holds is held by the printed placement. */
  lemma LetterCarriedOver(fen: string, x: char)
    requires Validation(fen) == None && IsPlacementChar(x) && !IsDigit([x])
    requires x in Placement(fen)
    ensures x in Join(Ranks(FenBoard(fen).pieces), '/')
  {
    ValidatedShape(fen);
    var groups := RankGroups(fen);
    var ng := Ranks(FenBoard(fen).pieces);
    JoinSplit(Placement(fen), '/');
    InJoin(groups, '/', x);
    var i :| 0 <= i < 8 && x in groups[i];
    ReprintedRow(fen, i);
    SameLetters(groups[i], ng[i], x);
    InJoin(ng, '/', x);
  }

  /** The FEN printed from a parsed position, with any admissible en-passant text, passes
      `validateFEN`, and its fields and rank groups are the printed ones. */
  lemma ReprintValidates(fen: string, ep: string)
    requires Validation(fen) == None && MatchesEnPassant(ep) && ' ' !in ep
    ensures var b := FenBoard(fen);
      var s := Join(FieldsWith(b, ep), ' ');
      Validation(s) == None && Split(s, ' ') == FieldsWith(b, ep)
      && RankGroups(s) == Ranks(b.pieces)
  {
    var b := FenBoard(fen);
    var s := Join(FieldsWith(b, ep), ' ');
    var ng := Ranks(b.pieces);
    PrintedFieldsMatch(FenBoard(fen), ep);
    forall r | 0 <= r < 8 ensures RankOk(ng[r], r) {
      ReprintedRow(fen, r);
    }
    LetterCarriedOver(fen, 'K');
    LetterCarriedOver(fen, 'k');
    assert RanksOkBefore(s, 8);
    ValidationAcceptsIff(s);
  }

  /** Parsing the printed FEN gives the parsed position back, with the en-passant target the
      printed text names. */
  lemma ReprintParses(fen: string, ep: string)
    requires Validation(fen) == None && MatchesEnPassant(ep) && ' ' !in ep
    ensures var b := FenBoard(fen);
      var s := Join(FieldsWith(b, ep), ' ');
      Validation(s) == None && FenBoard(s) == b.(fen := s, enPassant := EnPassantTarget(ep))
  {
    var b := FenBoard(fen);
    var s := Join(FieldsWith(b, ep), ' ');
    ReprintValidates(fen, ep);
    ValidatedShape(fen);
    ValidatedShape(s);
    forall r | 0 <= r < 8 ensures Expand(RankGroups(s)[r]) == Expand(RankGroups(fen)[r]) {
      ReprintedRow(fen, r);
    }
    BoardsAgree(RankGroups(s), RankGroups(fen));
    SideFieldReadsBack(b.turn);
    CastlingFieldReadsBack(b.whiteShortCastle, b.whiteLongCastle, b.blackShortCastle, b.blackLongCastle);
    ClockReadsBack(b.halfMove);
    ClockReadsBack(b.fullMove);
  }

  /** `parseFEN(boardDataToFEN(parseFEN(fen)))`, with the target printed by name: the printed FEN
      is valid and parses back to the position, differing only in the `fen` text it records. */
  lemma RoundTripIntended(fen: string)
    requires Validation(fen) == None
    ensures var b := FenBoard(fen);
      var s := SerializeIntended(b);
      Validation(s) == None && FenBoard(s) == b.(fen := s) && ParseResult(s) == Success(b.(fen := s))
  {
    var b := FenBoard(fen);
    EnPassantIntendedReadsBack(b.enPassant);
    ReprintParses(fen, EnPassantFieldIntended(b.enPassant));
    ParseResultIsBoard(SerializeIntended(b));
  }

  /** The round trip as written holds for every position without an en-passant target. */
  lemma RoundTripAsWritten(fen: string)
    requires Validation(fen) == None && FenBoard(fen).enPassant == None
    ensures var b := FenBoard(fen);
      var s := Serialize(b);
      Validation(s) == None && ParseResult(s) == Success(b.(fen := s))
  {
    RoundTripIntended(fen);
  }

  /** As written, a position with an en-passant target is printed as a FEN that `validateFEN`
      rejects and `parseFEN` throws on. */
  lemma SerializeRejectsTarget(data: BoardData)
    requires data.enPassant.Some?
    ensures Validation(Serialize(data)) == Some(GrammarMismatch)
    ensures ParseResult(Serialize(data)) == Failure(GrammarMismatch)
  {
    var f := EnPassantField(data.enPassant);
    EnPassantAsWrittenRejected(data.enPassant.value);
    SerializedFields(data, f);
    ParseResultIsBoard(Serialize(data));
  }

  /** The target e3 that `parseFEN` reads from "e3" is printed back as "44". */
  lemma EnPassantE3Printed()
    ensures EnPassantTarget("e3") == Some(44)
    ensures EnPassantField(Some(44)) == "44" && EnPassantFieldIntended(Some(44)) == "e3"
  {
  }

  /** The intended printing of a position is the join of six given fields when each printed
      field is the given one. */
  lemma SerializeIntendedOfFields(b: BoardData, fields: seq<string>)
    requires |fields| == 6
    requires Join(Ranks(b.pieces), '/') == fields[0] && SideField(b.turn) == fields[1]
    requires CastlingField(b.whiteShortCastle, b.whiteLongCastle, b.blackShortCastle, b.blackLongCastle) == fields[2]
    requires EnPassantFieldIntended(b.enPassant) == fields[3]
    requires NatToString(b.halfMove) == fields[4] && NatToString(b.fullMove) == fields[5]
    ensures SerializeIntended(b) == Join(fields, ' ')
  {
    assert FieldsWith(b, EnPassantFieldIntended(b.enPassant)) == fields;
  }

  /** A group of a valid FEN with no two adjacent digits is printed back as itself. */
  lemma CanonicalRow(fen: string, r: nat)
    requires Validation(fen) == None && r < 8
    requires NoAdjacentDigits(RankGroups(fen)[r])
    ensures Ranks(FenBoard(fen).pieces)[r] == RankGroups(fen)[r]
  {
    ValidatedShape(fen);
    RowCellsOfFenBoard(fen, r);
    assert IsRankGroup(RankGroups(fen)[r]);
    EncodeRankOfExpand(RankGroups(fen)[r]);
  }

  /** Every row of a valid FEN whose groups have no two adjacent digits is printed back as
      its own group. */
  lemma CanonicalRanks(fen: string)
    requires Validation(fen) == None
    requires forall r :: 0 <= r < |RankGroups(fen)| ==> NoAdjacentDigits(RankGroups(fen)[r])
    ensures Ranks(FenBoard(fen).pieces) == RankGroups(fen)
  {
    var ranks := Ranks(FenBoard(fen).pieces);
    var groups := RankGroups(fen);
    assert |groups| == 8 by { ValidatedShape(fen); }
    forall r | 0 <= r < 8 ensures ranks[r] == groups[r] {
      CanonicalRow(fen, r);
    }
    SameElements(ranks, groups);
  }

  /** The printed placement of such a FEN is its own placement field. */
  lemma CanonicalPlacement(fen: string)
    requires Validation(fen) == None
    requires forall r :: 0 <= r < |RankGroups(fen)| ==> NoAdjacentDigits(RankGroups(fen)[r])
    ensures Join(Ranks(FenBoard(fen).pieces), '/') == Split(fen, ' ')[0]
  {
    CanonicalRanks(fen);
    JoinSplit(Placement(fen), '/');
  }

  /** The side to move and the target, printed by name, are the text they were read from. */
  lemma SideAndTargetReprinted(fen: string)
    requires Validation(fen) == None
    ensures var fields := Split(fen, ' ');
      var b := FenBoard(fen);
      |fields| == 6 && SideField(b.turn) == fields[1] && EnPassantFieldIntended(b.enPassant) == fields[3]
  {
    FenBoardSideAndTarget(fen);
    ValidatedShape(fen);
    assert MatchesFenRegex(fen);
  }

  /** Non-empty castling text is printed back from the rights read from it. */
  lemma CastlingReprinted(fen: string)
    requires Validation(fen) == None
    requires |Split(fen, ' ')| == 6 && Split(fen, ' ')[2] != ""
    ensures var b := FenBoard(fen);
      CastlingField(b.whiteShortCastle, b.whiteLongCastle, b.blackShortCastle, b.blackLongCastle)
        == Split(fen, ' ')[2]
  {
    var b := FenBoard(fen);
    FenBoardCastling(fen);
    CastlingLettersShape(b.whiteShortCastle, b.whiteLongCastle, b.blackShortCastle, b.blackLongCastle);
  }

  /** A valid FEN in the form `boardDataToFEN` prints (each run of empty squares one digit,
      castling "-" rather than empty, clocks without leading zeros) is printed back from its
      parsed position character for character, with the target printed by name. */
  lemma CanonicalTextIntended(fen: string)
    requires Validation(fen) == None
    requires forall r :: 0 <= r < |RankGroups(fen)| ==> NoAdjacentDigits(RankGroups(fen)[r])
    requires |Split(fen, ' ')| == 6 && Split(fen, ' ')[2] != ""
    requires IsCanonicalDecimal(Split(fen, ' ')[4]) && IsCanonicalDecimal(Split(fen, ' ')[5])
    ensures SerializeIntended(FenBoard(fen)) == fen
  {
    var fields := Split(fen, ' ');
    var b := FenBoard(fen);
    CanonicalPlacement(fen);
    SideAndTargetReprinted(fen);
    CastlingReprinted(fen);
    FenBoardClocks(fen);
    SerializeIntendedOfFields(b, fields);
    JoinSplit(fen, ' ');
  }

  /** As written, such a FEN is reproduced exactly when it has no en-passant target. */
  lemma CanonicalTextAsWritten(fen: string)
    requires Validation(fen) == None
    requires forall r :: 0 <= r < |RankGroups(fen)| ==> NoAdjacentDigits(RankGroups(fen)[r])
    requires |Split(fen, ' ')| == 6 && Split(fen, ' ')[2] != ""
    requires IsCanonicalDecimal(Split(fen, ' ')[4]) && IsCanonicalDecimal(Split(fen, ' ')[5])
    ensures Serialize(FenBoard(fen)) == fen <==> Split(fen, ' ')[3] == "-"
  {
    if Split(fen, ' ')[3] == "-" {
      CanonicalTextIntended(fen);
    } else {
      TargetNotReproduced(fen);
    }
  }

  /** As written, no validated FEN with an en-passant target is printed back as itself: the
      reprint names the target by number and so fails validation, which the FEN passed. */
  lemma TargetNotReproduced(fen: string)
    requires Validation(fen) == None
    ensures |Split(fen, ' ')| == 6
    ensures Split(fen, ' ')[3] != "-" ==> Serialize(FenBoard(fen)) != fen
  {
    ValidatedShape(fen);
    FenBoardSideAndTarget(fen);
    if Split(fen, ' ')[3] != "-" {
      SerializeRejectsTarget(FenBoard(fen));
    }
  }

  /** A FEN printed from a parsed position is in the printed form: its rows have no two
      adjacent digits, its castling field is not empty and its clocks are canonical. So printing
      what it parses to gives it back character for character. */
  lemma PrintedTextFixpoint(fen: string)
    requires Validation(fen) == None
    ensures var s := SerializeIntended(FenBoard(fen));
      Validation(s) == None && SerializeIntended(FenBoard(s)) == s
  {
    var b := FenBoard(fen);
    var ep := EnPassantFieldIntended(b.enPassant);
    var s := SerializeIntended(b);
    EnPassantIntendedReadsBack(b.enPassant);
    ReprintValidates(fen, ep);
    PrintedRanksMinimal(b.pieces);
    CastlingFieldReadsBack(b.whiteShortCastle, b.whiteLongCastle, b.blackShortCastle, b.blackLongCastle);
    assert Split(s, ' ') == FieldsWith(b, ep);
    CanonicalTextIntended(s);
  }
}
