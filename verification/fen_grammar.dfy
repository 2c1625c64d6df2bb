/** The grammar of functions/game/FEN.ts, `FENRegex`, written out as predicates:
    `^([KQRNBPkqbnrp1-8]+\/){7}[KQRNBPkqbnrp1-8]+ [wb] (-|K?Q?k?q?) (-|[a-h][1-8]) \d+ \d+$`.
    None of its six parts can contain a space and the parts are separated by single spaces, so a
    string matches exactly when splitting it at spaces gives six fields that match their parts. */
module FenGrammar {
  import opened Strings

  /** The character class `[KQRNBPkqbnrp1-8]` of the placement field. */
  predicate IsPlacementChar(ch: char) {
    ch == 'K' || ch == 'Q' || ch == 'R' || ch == 'N' || ch == 'B' || ch == 'P'
    || ch == 'k' || ch == 'q' || ch == 'b' || ch == 'n' || ch == 'r' || ch == 'p'
    || '1' <= ch <= '8'
  }

  /** `[KQRNBPkqbnrp1-8]+`: one rank group. */
  predicate IsRankGroup(g: string) {
    |g| >= 1 && forall k :: 0 <= k < |g| ==> IsPlacementChar(g[k])
  }

  /** `([KQRNBPkqbnrp1-8]+\/){7}[KQRNBPkqbnrp1-8]+`: eight groups separated by '/'. */
  predicate MatchesPlacement(p: string) {
    var groups := Split(p, '/');
    |groups| == 8 && forall i :: 0 <= i < 8 ==> IsRankGroup(groups[i])
  }

  /** `[wb]` */
  predicate MatchesSide(f: string) {
    f == "w" || f == "b"
  }

  /** The optional `ch?` of a regular expression, matched greedily. */
  function SkipOptional(s: string, ch: char): string {
    if |s| > 0 && s[0] == ch then s[1..] else s
  }

  /** `K?Q?k?q?`, which the empty string also matches. */
  predicate MatchesCastlingFlags(f: string) {
    SkipOptional(SkipOptional(SkipOptional(SkipOptional(f, 'K'), 'Q'), 'k'), 'q') == ""
  }

  /** `(-|K?Q?k?q?)` */
  predicate MatchesCastling(f: string) {
    f == "-" || MatchesCastlingFlags(f)
  }

  /** `(-|[a-h][1-8])` */
  predicate MatchesEnPassant(f: string) {
    f == "-" || (|f| == 2 && 'a' <= f[0] <= 'h' && '1' <= f[1] <= '8')
  }

  /** `FENRegex.test(s)`; `\d+` is `IsDigitString`. */
  predicate MatchesFenRegex(s: string) {
    var fields := Split(s, ' ');
    |fields| == 6 && MatchesPlacement(fields[0]) && MatchesSide(fields[1])
    && MatchesCastling(fields[2]) && MatchesEnPassant(fields[3])
    && IsDigitString(fields[4]) && IsDigitString(fields[5])
  }

  /** `b ? ch : ""` */
  function Opt(b: bool, ch: char): string {
    if b then [ch] else []
  }

  /** The castling letters for four flags, in the fixed order K, Q, k, q. */
  function CastlingLetters(wk: bool, wq: bool, bk: bool, bq: bool): string {
    Opt(wk, 'K') + (Opt(wq, 'Q') + (Opt(bk, 'k') + Opt(bq, 'q')))
  }

  lemma SkipOpt(b: bool, ch: char, rest: string)
    requires rest == [] || rest[0] != ch
    ensures SkipOptional(Opt(b, ch) + rest, ch) == rest
  {
    if b {
      assert (Opt(b, ch) + rest)[1..] == rest;
    } else {
      assert Opt(b, ch) + rest == rest;
    }
  }

  lemma Unskip(f: string, ch: char) returns (b: bool)
    ensures f == Opt(b, ch) + SkipOptional(f, ch)
  {
    b := |f| > 0 && f[0] == ch;
    if b {
      assert f == [f[0]] + f[1..];
    } else {
      assert f == [] + f;
    }
  }

  /** The castling letters match `K?Q?k?q?`, are empty exactly when no flag is set, contain a
      letter exactly when its flag is set, and contain nothing but those letters. */
  lemma CastlingLettersShape(wk: bool, wq: bool, bk: bool, bq: bool)
    ensures MatchesCastlingFlags(CastlingLetters(wk, wq, bk, bq))
    ensures CastlingLetters(wk, wq, bk, bq) == "" <==> !(wk || wq || bk || bq)
    ensures var s := CastlingLetters(wk, wq, bk, bq);
      ('K' in s <==> wk) && ('Q' in s <==> wq) && ('k' in s <==> bk) && ('q' in s <==> bq)
    ensures var s := CastlingLetters(wk, wq, bk, bq);
      forall k :: 0 <= k < |s| ==> s[k] in "KQkq"
  {
    var s := CastlingLetters(wk, wq, bk, bq);
    CastlingLettersMatch(wk, wq, bk, bq);
    forall ch ensures ch in s <==> (wk && ch == 'K') || (wq && ch == 'Q') || (bk && ch == 'k') || (bq && ch == 'q') {
      CastlingLettersHold(wk, wq, bk, bq, ch);
    }
    forall k | 0 <= k < |s| ensures s[k] in "KQkq" {
      CastlingLettersHold(wk, wq, bk, bq, s[k]);
    }
  }

  lemma CastlingLettersMatch(wk: bool, wq: bool, bk: bool, bq: bool)
    ensures MatchesCastlingFlags(CastlingLetters(wk, wq, bk, bq))
  {
    var s3 := Opt(bq, 'q');
    var s2 := Opt(bk, 'k') + s3;
    var s1 := Opt(wq, 'Q') + s2;
    SkipOpt(wk, 'K', s1);
    SkipOpt(wq, 'Q', s2);
    SkipOpt(bk, 'k', s3);
    SkipOpt(bq, 'q', []);
    assert s3 + [] == s3;
  }

  /** Which characters the castling letters hold. */
  lemma CastlingLettersHold(wk: bool, wq: bool, bk: bool, bq: bool, ch: char)
    ensures ch in CastlingLetters(wk, wq, bk, bq)
      <==> (wk && ch == 'K') || (wq && ch == 'Q') || (bk && ch == 'k') || (bq && ch == 'q')
  {
    var s3 := Opt(bq, 'q');
    var s2 := Opt(bk, 'k') + s3;
    var s1 := Opt(wq, 'Q') + s2;
    InOpt(wk, 'K', s1, ch);
    InOpt(wq, 'Q', s2, ch);
    InOpt(bk, 'k', s3, ch);
    InOpt(bq, 'q', [], ch);
    assert s3 + [] == s3;
  }

  lemma InOpt(b: bool, x: char, rest: string, ch: char)
    ensures ch in Opt(b, x) + rest <==> (b && ch == x) || ch in rest
  {
  }

  /** A text matching `K?Q?k?q?` takes each letter at most once, in that order. */
  lemma CastlingFlagsSplit(f: string) returns (wk: bool, wq: bool, bk: bool, bq: bool)
    requires MatchesCastlingFlags(f)
    ensures f == CastlingLetters(wk, wq, bk, bq)
  {
    var f1 := SkipOptional(f, 'K');
    var f2 := SkipOptional(f1, 'Q');
    var f3 := SkipOptional(f2, 'k');
    wk := Unskip(f, 'K');
    wq := Unskip(f1, 'Q');
    bk := Unskip(f2, 'k');
    bq := Unskip(f3, 'q');
    assert f3 == Opt(bq, 'q') + [];
  }

  /** A text matching `K?Q?k?q?` is the letters of the flags it contains. */
  lemma CastlingFlagsAreLetters(f: string)
    requires MatchesCastlingFlags(f)
    ensures f == CastlingLetters('K' in f, 'Q' in f, 'k' in f, 'q' in f)
  {
    var wk, wq, bk, bq := CastlingFlagsSplit(f);
    CastlingLettersShape(wk, wq, bk, bq);
  }

  /** The regular expression, read as a concatenation of its six parts. */
  lemma MatchesFenRegexOfFields(fields: seq<string>)
    requires |fields| >= 1
    requires forall i :: 0 <= i < |fields| ==> ' ' !in fields[i]
    ensures MatchesFenRegex(Join(fields, ' ')) <==>
      |fields| == 6 && MatchesPlacement(fields[0]) && MatchesSide(fields[1])
      && MatchesCastling(fields[2]) && MatchesEnPassant(fields[3])
      && IsDigitString(fields[4]) && IsDigitString(fields[5])
  {
    SplitJoin(fields, ' ');
  }

  /** The placement part, read as a concatenation of its eight groups. */
  lemma MatchesPlacementOfGroups(groups: seq<string>)
    requires |groups| >= 1
    requires forall i :: 0 <= i < |groups| ==> '/' !in groups[i]
    ensures MatchesPlacement(Join(groups, '/')) <==>
      |groups| == 8 && forall i :: 0 <= i < 8 ==> IsRankGroup(groups[i])
  {
    SplitJoin(groups, '/');
  }
}
