/** `validateFEN` of functions/game/FEN.ts: the grammar, then the king check, then the rank
    checks, reporting the first failure only. */
module FenValidate {
  import opened Wrappers
  import opened Strings
  import opened Types
  import opened Misc
  import opened FenGrammar

  /** The failures the codec reports (the last two only `parseFEN` raises). The source reports them as message strings: grammar
      mismatch and missing king both read "Invalid FEN!", rank too long and bad rank sum both
      read "Invalid position at rank r"; the kinds keep them apart. `rank` is the rank number
      8 - i of group i. */
  datatype FenError =
    | GrammarMismatch
    | MissingKing(color: PieceColor)
    | RankTooLong(rank: int)
    | PawnOnBackRank(rank: int)
    | InvalidLetter(ch: char, rank: int)
    | InvalidCharacter(ch: char)
    | RankSumNot8(rank: int)
    | UnknownPiece(ch: char)
    | FileOverflow

  /** The placement field, `fields[0]`. */
  function Placement(fen: string): string {
    Split(fen, ' ')[0]
  }

  /** The rank groups, `fields[0].split("/")`, rank 8 first. */
  function RankGroups(fen: string): seq<string> {
    Split(Placement(fen), '/')
  }

  /** The letters the `switch (ch.toLowerCase())` accepts. */
  predicate IsPieceLetterLower(ch: char) {
    ch in "kqrnbp"
  }

  /** What one character adds to the counter `c`: a letter 1, a digit its value. */
  function CharUnit(ch: char): nat {
    if IsAlpha([ch]) then 1 else if IsDigit([ch]) then DigitValue(ch) else 0
  }

  /** The counter `c` after the characters of `g`: file units covered. */
  function Units(g: string): nat
    decreases |g|
  {
    if g == [] then 0 else Units(g[..|g| - 1]) + CharUnit(g[|g| - 1])
  }

  /** The first character of group i at or after position j that the inner loop rejects. */
  function CharError(g: string, j: nat, i: int): Option<FenError>
    decreases |g| - j
  {
    if j >= |g| then None
    else if IsAlpha([g[j]]) then
      if IsPieceLetterLower(ToLowerChar(g[j])) then CharError(g, j + 1, i)
      else Some(InvalidLetter(g[j], 8 - i))
    else if IsDigit([g[j]]) then CharError(g, j + 1, i)
    else Some(InvalidCharacter(g[j]))
  }

  /** `rank.toLowerCase().includes("p")` */
  predicate HasPawn(g: string) {
    'p' in ToLower(g)
  }

  predicate IsBackRank(i: int) {
    i == 0 || i == 7
  }

  /** The checks on group i, in the order of the loop body. */
  function RankError(g: string, i: int): Option<FenError> {
    if |g| > 8 then Some(RankTooLong(8 - i))
    else if IsBackRank(i) && HasPawn(g) then Some(PawnOnBackRank(8 - i))
    else if CharError(g, 0, i).Some? then CharError(g, 0, i)
    else if Units(g) != 8 then Some(RankSumNot8(8 - i))
    else None
  }

  /** The first failing group from i on. */
  function RanksError(groups: seq<string>, i: nat): Option<FenError>
    decreases |groups| - i
  {
    if i >= |groups| then None
    else if RankError(groups[i], i).Some? then RankError(groups[i], i)
    else RanksError(groups, i + 1)
  }

  /** What `validateFEN` reports: None for `undefined`. */
  function Validation(fen: string): Option<FenError> {
    if !MatchesFenRegex(fen) then Some(GrammarMismatch)
    else if 'K' !in Placement(fen) then Some(MissingKing(White))
    else if 'k' !in Placement(fen) then Some(MissingKing(Black))
    else RanksError(RankGroups(fen), 0)
  }

  /** `validateFEN(FEN)` */
  method ValidateFen(fen: string) returns (err: Option<FenError>)
    ensures err == Validation(fen)
  {
    if !MatchesFenRegex(fen) {
      return Some(GrammarMismatch);
    }
    var fields := Split(fen, ' ');
    if 'K' !in fields[0] {
      return Some(MissingKing(White));
    }
    if 'k' !in fields[0] {
      return Some(MissingKing(Black));
    }
    var ranks := Split(fields[0], '/');
    err := CheckRanks(ranks);
  }

  /** The loop of `validateFEN` over the rank groups. */
  method CheckRanks(ranks: seq<string>) returns (err: Option<FenError>)
    ensures err == RanksError(ranks, 0)
  {
    for i := 0 to |ranks|
      invariant RanksError(ranks, 0) == RanksError(ranks, i)
    {
      var rank := ranks[i];
      if |rank| > 8 {
        return Some(RankTooLong(8 - i));
      }
      var c := 0;
      if (i == 0 || i == 7) && 'p' in ToLower(rank) {
        return Some(PawnOnBackRank(8 - i));
      }
      for j := 0 to |rank|
        invariant c == Units(rank[..j])
        invariant CharError(rank, 0, i) == CharError(rank, j, i)
      {
        var ch := rank[j];
        if IsAlpha([ch]) {
          if IsPieceLetterLower(ToLowerChar(ch)) {
            assert CharError(rank, j, i) == CharError(rank, j + 1, i);
            c := c + 1;
          } else {
            return Some(InvalidLetter(ch, 8 - i));
          }
        } else if IsDigit([ch]) {
          assert CharError(rank, j, i) == CharError(rank, j + 1, i);
          c := c + DigitValue(ch);
        } else {
          return Some(InvalidCharacter(ch));
        }
        assert rank[..j + 1][..j] == rank[..j];
      }
      assert rank[..|rank|] == rank;
      if c != 8 {
        return Some(RankSumNot8(8 - i));
      }
    }
    return None;
  }

  /** What the rank checks demand of group i once its characters are known to be placement
      characters. */
  predicate RankOk(g: string, i: int) {
    |g| <= 8 && !(IsBackRank(i) && HasPawn(g)) && Units(g) == 8
  }

  predicate KingsPresent(fen: string) {
    'K' in Placement(fen) && 'k' in Placement(fen)
  }

  /** Groups 0 .. n-1 pass the rank checks. */
  predicate RanksOkBefore(fen: string, n: int)
    requires MatchesFenRegex(fen)
    requires n <= 8
  {
    forall k :: 0 <= k < n ==> RankOk(RankGroups(fen)[k], k)
  }

  /** The position rules, stated without regard to the order of the checks. */
  predicate IsValidFen(fen: string) {
    MatchesFenRegex(fen) && KingsPresent(fen) && RanksOkBefore(fen, 8)
  }

  /** The inner loop never rejects a character the grammar admits. */
  lemma {:induction false} CharErrorNoneForGroup(g: string, j: nat, i: int)
    requires forall k :: 0 <= k < |g| ==> IsPlacementChar(g[k])
    ensures CharError(g, j, i) == None
    decreases |g| - j
  {
    if j < |g| {
      CharErrorNoneForGroup(g, j + 1, i);
    }
  }

  /** On a group of placement characters the checks of the loop body are `RankOk`. */
  lemma RankErrorNoneIff(g: string, i: int)
    requires forall k :: 0 <= k < |g| ==> IsPlacementChar(g[k])
    ensures RankError(g, i) == None <==> RankOk(g, i)
    ensures RankError(g, i).Some? ==>
              RankError(g, i).value in {RankTooLong(8 - i), PawnOnBackRank(8 - i), RankSumNot8(8 - i)}
  {
    CharErrorNoneForGroup(g, 0, i);
  }

  /** The rank loop fails at the first failing group, with that group's error. */
  lemma {:induction false} FirstFailingRank(groups: seq<string>, i0: nat) returns (i: nat)
    requires RanksError(groups, i0).Some?
    ensures i0 <= i < |groups| && RankError(groups[i], i) == RanksError(groups, i0)
    ensures forall k :: i0 <= k < i ==> RankError(groups[k], k) == None
    decreases |groups| - i0
  {
    if RankError(groups[i0], i0).Some? {
      i := i0;
    } else {
      i := FirstFailingRank(groups, i0 + 1);
    }
  }

  /** The rank loop passes exactly when every group from i0 on passes. */
  lemma {:induction false} RanksErrorNoneIff(groups: seq<string>, i0: nat)
    ensures RanksError(groups, i0) == None <==>
      forall k :: i0 <= k < |groups| ==> RankError(groups[k], k) == None
    decreases |groups| - i0
  {
    if i0 < |groups| {
      RanksErrorNoneIff(groups, i0 + 1);
    }
  }

  /** `validateFEN` returns nothing exactly for the FEN strings that satisfy every rule. */
  lemma ValidationAcceptsIff(fen: string)
    ensures Validation(fen) == None <==> IsValidFen(fen)
  {
    if MatchesFenRegex(fen) && KingsPresent(fen) {
      var groups := RankGroups(fen);
      forall k | 0 <= k < 8 ensures RankError(groups[k], k) == None <==> RankOk(groups[k], k) {
        RankErrorNoneIff(groups[k], k);
      }
      RanksErrorNoneIff(groups, 0);
    }
  }

  /** The rank loop passes over groups that pass. */
  lemma {:induction false} RanksErrorSkip(groups: seq<string>, i0: nat, n: nat)
    requires i0 <= n <= |groups|
    requires forall k :: i0 <= k < n ==> RankError(groups[k], k) == None
    ensures RanksError(groups, i0) == RanksError(groups, n)
    decreases n - i0
  {
    if i0 < n {
      RanksErrorSkip(groups, i0 + 1, n);
    }
  }

  /** The first group that breaks a rank rule decides the error. */
  lemma FirstBadGroupDecides(fen: string, n: int)
    requires MatchesFenRegex(fen) && KingsPresent(fen)
    requires 0 <= n < 8 && RanksOkBefore(fen, n) && !RankOk(RankGroups(fen)[n], n)
    ensures Validation(fen).Some? && Validation(fen) == RankError(RankGroups(fen)[n], n)
  {
    var groups := RankGroups(fen);
    forall k | 0 <= k <= n ensures RankError(groups[k], k) == None <==> RankOk(groups[k], k) {
      RankErrorNoneIff(groups[k], k);
    }
    RanksErrorSkip(groups, 0, n);
  }

  /** When the grammar and the kings pass, a failure comes from the first bad group. */
  lemma ValidationFailingRank(fen: string) returns (n: int)
    requires MatchesFenRegex(fen) && KingsPresent(fen) && Validation(fen).Some?
    ensures 0 <= n < 8 && RanksOkBefore(fen, n) && !RankOk(RankGroups(fen)[n], n)
    ensures Validation(fen) == RankError(RankGroups(fen)[n], n)
  {
    var groups := RankGroups(fen);
    n := FirstFailingRank(groups, 0);
    forall k | 0 <= k <= n ensures RankError(groups[k], k) == None <==> RankOk(groups[k], k) {
      RankErrorNoneIff(groups[k], k);
    }
  }

  /** `validateFEN` checks the grammar first, then the white king, then the black king. */
  lemma ValidationEarlyFailures(fen: string)
    ensures Validation(fen) == Some(GrammarMismatch) <==> !MatchesFenRegex(fen)
    ensures Validation(fen) == Some(MissingKing(White)) <==>
              MatchesFenRegex(fen) && 'K' !in Placement(fen)
    ensures Validation(fen) == Some(MissingKing(Black)) <==>
              MatchesFenRegex(fen) && 'K' in Placement(fen) && 'k' !in Placement(fen)
  {
    if MatchesFenRegex(fen) && KingsPresent(fen) && Validation(fen).Some? {
      var n := ValidationFailingRank(fen);
      RankErrorNoneIff(RankGroups(fen)[n], n);
    }
  }

  /** On a group of placement characters only the length, pawn and sum checks can fire. */
  lemma RankErrorOnGroup(g: string, i: int)
    requires forall k :: 0 <= k < |g| ==> IsPlacementChar(g[k])
    ensures RankError(g, i) ==
              if |g| > 8 then Some(RankTooLong(8 - i))
              else if IsBackRank(i) && HasPawn(g) then Some(PawnOnBackRank(8 - i))
              else if Units(g) != 8 then Some(RankSumNot8(8 - i))
              else None
  {
    CharErrorNoneForGroup(g, 0, i);
  }

  /** The error a group of placement characters draws, kind by kind. */
  lemma RankErrorKinds(g: string, i: int, r: int)
    requires forall k :: 0 <= k < |g| ==> IsPlacementChar(g[k])
    ensures RankError(g, i) == Some(RankTooLong(r)) <==> r == 8 - i && |g| > 8
    ensures RankError(g, i) == Some(PawnOnBackRank(r)) <==>
              r == 8 - i && |g| <= 8 && IsBackRank(i) && HasPawn(g)
    ensures RankError(g, i) == Some(RankSumNot8(r)) <==>
              r == 8 - i && |g| <= 8 && !(IsBackRank(i) && HasPawn(g)) && Units(g) != 8
  {
    RankErrorOnGroup(g, i);
  }

  /** The rank loop over eight groups of placement characters fails with a rank error e of rank
      r exactly at group 8 - r, after groups that all pass. */
  lemma RanksRankFailure(groups: seq<string>, r: int, e: FenError)
    requires |groups| == 8 && forall i :: 0 <= i < 8 ==> IsRankGroup(groups[i])
    requires e == RankTooLong(r) || e == PawnOnBackRank(r) || e == RankSumNot8(r)
    ensures RanksError(groups, 0) == Some(e) <==>
              1 <= r <= 8 && (forall k :: 0 <= k < 8 - r ==> RankOk(groups[k], k))
              && RankError(groups[8 - r], 8 - r) == Some(e)
  {
    if RanksError(groups, 0) == Some(e) {
      RanksRankFailureLocated(groups, r, e);
    }
    if 1 <= r <= 8 && (forall k :: 0 <= k < 8 - r ==> RankOk(groups[k], k))
       && RankError(groups[8 - r], 8 - r) == Some(e)
    {
      forall k | 0 <= k < 8 - r ensures RankError(groups[k], k) == None {
        RankErrorNoneIff(groups[k], k);
      }
      RanksErrorSkip(groups, 0, 8 - r);
    }
  }

  /** A rank error names the group it comes from, and every group before it passes. */
  lemma RanksRankFailureLocated(groups: seq<string>, r: int, e: FenError)
    requires |groups| == 8 && forall i :: 0 <= i < 8 ==> IsRankGroup(groups[i])
    requires e == RankTooLong(r) || e == PawnOnBackRank(r) || e == RankSumNot8(r)
    requires RanksError(groups, 0) == Some(e)
    ensures 1 <= r <= 8 && forall k :: 0 <= k < 8 - r ==> RankOk(groups[k], k)
    ensures RankError(groups[8 - r], 8 - r) == Some(e)
  {
    var n := FirstFailingRank(groups, 0);
    RankErrorNoneIff(groups[n], n);
    assert e.rank == 8 - n;
    forall k | 0 <= k < n ensures RankOk(groups[k], k) {
      RankErrorNoneIff(groups[k], k);
    }
  }

  /** Then group by group, rank 8 first: the reported rank r names group 8 - r, every group
      before it passes, and the error is that group's (length, then back-rank pawn, then sum). */
  lemma ValidationRankFailure(fen: string, r: int, e: FenError)
    requires e == RankTooLong(r) || e == PawnOnBackRank(r) || e == RankSumNot8(r)
    ensures Validation(fen) == Some(e) <==>
              MatchesFenRegex(fen) && KingsPresent(fen) && 1 <= r <= 8 && RanksOkBefore(fen, 8 - r)
              && RankError(RankGroups(fen)[8 - r], 8 - r) == Some(e)
  {
    if MatchesFenRegex(fen) && KingsPresent(fen) {
      RanksRankFailure(RankGroups(fen), r, e);
    }
  }

  /** The character errors of the inner loop are unreachable: the grammar admits only
      placement characters. */
  lemma ValidationNoCharacterErrors(fen: string)
    ensures Validation(fen).Some? ==>
              Validation(fen).value in {GrammarMismatch, MissingKing(White), MissingKing(Black)}
              || Validation(fen).value.RankTooLong? || Validation(fen).value.PawnOnBackRank?
              || Validation(fen).value.RankSumNot8?
  {
    if MatchesFenRegex(fen) && KingsPresent(fen) && Validation(fen).Some? {
      var n := ValidationFailingRank(fen);
      RankErrorNoneIff(RankGroups(fen)[n], n);
    }
  }
}
