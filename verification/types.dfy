/** The shared primitive types of types/index.ts: the square enumeration, piece ranks and
    colours, the `Piece` record and the `BoardData` position record. */
module Types {
  import opened Wrappers

  /** A value of the `Square` enum: a8 = 0, b8 = 1, ..., h8 = 7, a7 = 8, ..., h1 = 63. */
  type Square = i: int | 0 <= i < 64

  /** The name of enum member `sq`: file letter 'a' + sq % 8, rank digit 8 - sq / 8. */
  function SquareName(sq: Square): (name: string)
    ensures |name| == 2
    ensures 'a' <= name[0] <= 'h' && '1' <= name[1] <= '8'
    ensures name[0] as int - 'a' as int == sq % 8
    ensures '8' as int - name[1] as int == sq / 8
  {
    [('a' as int + sq % 8) as char, ('8' as int - sq / 8) as char]
  }

  /** `SquareStrings`: the square names written out, one source line (one rank) per row. */
  const SquareStrings: seq<string> :=
    ["a8", "b8", "c8", "d8", "e8", "f8", "g8", "h8"] +
    ["a7", "b7", "c7", "d7", "e7", "f7", "g7", "h7"] +
    ["a6", "b6", "c6", "d6", "e6", "f6", "g6", "h6"] +
    ["a5", "b5", "c5", "d5", "e5", "f5", "g5", "h5"] +
    ["a4", "b4", "c4", "d4", "e4", "f4", "g4", "h4"] +
    ["a3", "b3", "c3", "d3", "e3", "f3", "g3", "h3"] +
    ["a2", "b2", "c2", "d2", "e2", "f2", "g2", "h2"] +
    ["a1", "b1", "c1", "d1", "e1", "f1", "g1", "h1"]

  /** `Squares`: the member names of the `Square` enum, in the order of their values. */
  const Squares: seq<string> := seq(64, i requires 0 <= i < 64 => SquareName(i))

  /** `Square[name]`, the enum value of a square name; None for text that names no square. The
      enum object also has its reverse-mapping keys "0" to "63", which map to names, not values;
      the grammar lets only `[a-h][1-8]` and "-" reach this lookup, so they are left out. */
  function SquareOfName(name: string): (r: Option<Square>)
    ensures r.Some? <==> |name| == 2 && 'a' <= name[0] <= 'h' && '1' <= name[1] <= '8'
    ensures r.Some? ==> SquareName(r.value) == name
  {
    if |name| == 2 && 'a' <= name[0] <= 'h' && '1' <= name[1] <= '8' then
      Some(('8' as int - name[1] as int) * 8 + (name[0] as int - 'a' as int))
    else
      None
  }

  /** Naming is a bijection between enum values and two-character names. */
  lemma SquareOfNameOfSquareName(sq: Square)
    ensures SquareOfName(SquareName(sq)) == Some(sq)
  {
  }

  /** `PieceRank`: each rank's enum value is its upper-case FEN letter. */
  datatype PieceRank = King | Queen | Rook | Knight | Bishop | Pawn {
    function Code(): (c: char)
      ensures 'A' <= c <= 'Z'
    {
      match this
      case King => 'K'
      case Queen => 'Q'
      case Rook => 'R'
      case Knight => 'N'
      case Bishop => 'B'
      case Pawn => 'P'
    }
  }

  /** The six rank codes are distinct, so a code determines its rank. */
  lemma PieceRankCodesDistinct(a: PieceRank, b: PieceRank)
    ensures a.Code() == b.Code() <==> a == b
  {
  }

  /** `PieceColor`: the enum values are the FEN side-to-move letters, "w" for white and "b" for
      black. */
  datatype PieceColor = White | Black {
    function Code(): (c: char)
      ensures c == 'w' || c == 'b'
      ensures c == 'w' <==> this == White
      ensures c == 'b' <==> this == Black
    {
      match this
      case White => 'w'
      case Black => 'b'
    }
  }

  /** `Piece` as its constructor leaves it: the colour, rank, row and column it was given. */
  datatype Piece = Piece(color: PieceColor, rank: PieceRank, row: int, col: int)

  /** `BoardData`: a position as the board component holds it. `pieces` holds an entry only for
      occupied squares; `legalMoves` is filled by the caller, never by the codec. */
  datatype BoardData = BoardData(
    fen: string,
    enPassant: Option<Square>,
    whiteKing: Option<Square>,
    blackKing: Option<Square>,
    halfMove: nat,
    fullMove: nat,
    turn: PieceColor,
    whiteShortCastle: bool,
    whiteLongCastle: bool,
    blackShortCastle: bool,
    blackLongCastle: bool,
    pieces: map<Square, Piece>,
    legalMoves: map<Square, set<Square>>)

  /** The names list and the enum agree entry by entry: `SquareStrings[i]` names `Square` value i. */
  lemma SquareStringsNameSquares()
    ensures |SquareStrings| == 64
    ensures forall i :: 0 <= i < 64 ==> SquareStrings[i] == SquareName(i)
    ensures Squares == SquareStrings
  {
    SquareStringsRank8();
    SquareStringsRank7();
    SquareStringsRank6();
    SquareStringsRank5();
    SquareStringsRank4();
    SquareStringsRank3();
    SquareStringsRank2();
    SquareStringsRank1();
  }

  lemma SquareStringsRank8()
    ensures forall i :: 0 <= i < 8 ==> SquareStrings[i] == SquareName(i)
  {
    forall i | 0 <= i < 8 ensures SquareStrings[i] == SquareName(i) {
      match i
      case 0 => assert SquareName(0) == "a8" == SquareStrings[0];
      case 1 => assert SquareName(1) == "b8" == SquareStrings[1];
      case 2 => assert SquareName(2) == "c8" == SquareStrings[2];
      case 3 => assert SquareName(3) == "d8" == SquareStrings[3];
      case 4 => assert SquareName(4) == "e8" == SquareStrings[4];
      case 5 => assert SquareName(5) == "f8" == SquareStrings[5];
      case 6 => assert SquareName(6) == "g8" == SquareStrings[6];
      case 7 => assert SquareName(7) == "h8" == SquareStrings[7];
    }
  }

  lemma SquareStringsRank7()
    ensures forall i :: 8 <= i < 16 ==> SquareStrings[i] == SquareName(i)
  {
    forall i | 8 <= i < 16 ensures SquareStrings[i] == SquareName(i) {
      match i
      case 8 => assert SquareName(8) == "a7" == SquareStrings[8];
      case 9 => assert SquareName(9) == "b7" == SquareStrings[9];
      case 10 => assert SquareName(10) == "c7" == SquareStrings[10];
      case 11 => assert SquareName(11) == "d7" == SquareStrings[11];
      case 12 => assert SquareName(12) == "e7" == SquareStrings[12];
      case 13 => assert SquareName(13) == "f7" == SquareStrings[13];
      case 14 => assert SquareName(14) == "g7" == SquareStrings[14];
      case 15 => assert SquareName(15) == "h7" == SquareStrings[15];
    }
  }

  lemma SquareStringsRank6()
    ensures forall i :: 16 <= i < 24 ==> SquareStrings[i] == SquareName(i)
  {
    forall i | 16 <= i < 24 ensures SquareStrings[i] == SquareName(i) {
      match i
      case 16 => assert SquareName(16) == "a6" == SquareStrings[16];
      case 17 => assert SquareName(17) == "b6" == SquareStrings[17];
      case 18 => assert SquareName(18) == "c6" == SquareStrings[18];
      case 19 => assert SquareName(19) == "d6" == SquareStrings[19];
      case 20 => assert SquareName(20) == "e6" == SquareStrings[20];
      case 21 => assert SquareName(21) == "f6" == SquareStrings[21];
      case 22 => assert SquareName(22) == "g6" == SquareStrings[22];
      case 23 => assert SquareName(23) == "h6" == SquareStrings[23];
    }
  }

  lemma SquareStringsRank5()
    ensures forall i :: 24 <= i < 32 ==> SquareStrings[i] == SquareName(i)
  {
    forall i | 24 <= i < 32 ensures SquareStrings[i] == SquareName(i) {
      match i
      case 24 => assert SquareName(24) == "a5" == SquareStrings[24];
      case 25 => assert SquareName(25) == "b5" == SquareStrings[25];
      case 26 => assert SquareName(26) == "c5" == SquareStrings[26];
      case 27 => assert SquareName(27) == "d5" == SquareStrings[27];
      case 28 => assert SquareName(28) == "e5" == SquareStrings[28];
      case 29 => assert SquareName(29) == "f5" == SquareStrings[29];
      case 30 => assert SquareName(30) == "g5" == SquareStrings[30];
      case 31 => assert SquareName(31) == "h5" == SquareStrings[31];
    }
  }

  lemma SquareStringsRank4()
    ensures forall i :: 32 <= i < 40 ==> SquareStrings[i] == SquareName(i)
  {
    forall i | 32 <= i < 40 ensures SquareStrings[i] == SquareName(i) {
      match i
      case 32 => assert SquareName(32) == "a4" == SquareStrings[32];
      case 33 => assert SquareName(33) == "b4" == SquareStrings[33];
      case 34 => assert SquareName(34) == "c4" == SquareStrings[34];
      case 35 => assert SquareName(35) == "d4" == SquareStrings[35];
      case 36 => assert SquareName(36) == "e4" == SquareStrings[36];
      case 37 => assert SquareName(37) == "f4" == SquareStrings[37];
      case 38 => assert SquareName(38) == "g4" == SquareStrings[38];
      case 39 => assert SquareName(39) == "h4" == SquareStrings[39];
    }
  }

  lemma SquareStringsRank3()
    ensures forall i :: 40 <= i < 48 ==> SquareStrings[i] == SquareName(i)
  {
    forall i | 40 <= i < 48 ensures SquareStrings[i] == SquareName(i) {
      match i
      case 40 => assert SquareName(40) == "a3" == SquareStrings[40];
      case 41 => assert SquareName(41) == "b3" == SquareStrings[41];
      case 42 => assert SquareName(42) == "c3" == SquareStrings[42];
      case 43 => assert SquareName(43) == "d3" == SquareStrings[43];
      case 44 => assert SquareName(44) == "e3" == SquareStrings[44];
      case 45 => assert SquareName(45) == "f3" == SquareStrings[45];
      case 46 => assert SquareName(46) == "g3" == SquareStrings[46];
      case 47 => assert SquareName(47) == "h3" == SquareStrings[47];
    }
  }

  lemma SquareStringsRank2()
    ensures forall i :: 48 <= i < 56 ==> SquareStrings[i] == SquareName(i)
  {
    forall i | 48 <= i < 56 ensures SquareStrings[i] == SquareName(i) {
      match i
      case 48 => assert SquareName(48) == "a2" == SquareStrings[48];
      case 49 => assert SquareName(49) == "b2" == SquareStrings[49];
      case 50 => assert SquareName(50) == "c2" == SquareStrings[50];
      case 51 => assert SquareName(51) == "d2" == SquareStrings[51];
      case 52 => assert SquareName(52) == "e2" == SquareStrings[52];
      case 53 => assert SquareName(53) == "f2" == SquareStrings[53];
      case 54 => assert SquareName(54) == "g2" == SquareStrings[54];
      case 55 => assert SquareName(55) == "h2" == SquareStrings[55];
    }
  }

  lemma SquareStringsRank1()
    ensures forall i :: 56 <= i < 64 ==> SquareStrings[i] == SquareName(i)
  {
    forall i | 56 <= i < 64 ensures SquareStrings[i] == SquareName(i) {
      match i
      case 56 => assert SquareName(56) == "a1" == SquareStrings[56];
      case 57 => assert SquareName(57) == "b1" == SquareStrings[57];
      case 58 => assert SquareName(58) == "c1" == SquareStrings[58];
      case 59 => assert SquareName(59) == "d1" == SquareStrings[59];
      case 60 => assert SquareName(60) == "e1" == SquareStrings[60];
      case 61 => assert SquareName(61) == "f1" == SquareStrings[61];
      case 62 => assert SquareName(62) == "g1" == SquareStrings[62];
      case 63 => assert SquareName(63) == "h1" == SquareStrings[63];
    }
  }
}
