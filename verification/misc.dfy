/** The character classifiers and board-coordinate helpers of functions/misc.ts. Each classifier
    is a regular-expression test anchored at both ends, so it holds of one-character strings
    only. */
module Misc {
  import opened Wrappers
  import opened Strings
  import opened Types

  /** `isUpperCase`: the string is one letter A-Z, that is one character that `toLowerCase`
      changes. */
  function IsUpperCase(ch: string): (r: bool)
    ensures r <==> |ch| == 1 && ToLowerChar(ch[0]) != ch[0]
  {
    |ch| == 1 && 'A' <= ch[0] <= 'Z'
  }

  /** `isLowerCase`: the string is one letter a-z, that is one letter that `toLowerCase` leaves
      as it is. */
  function IsLowerCase(ch: string): (r: bool)
    ensures r <==> |ch| == 1 && 'a' <= ToLowerChar(ch[0]) <= 'z' && ToLowerChar(ch[0]) == ch[0]
  {
    |ch| == 1 && 'a' <= ch[0] <= 'z'
  }

  /** `isAlpha`: `/^[A-Z]$/i`, one ASCII letter of either case. */
  function IsAlpha(ch: string): (r: bool)
    ensures r <==> IsUpperCase(ch) || IsLowerCase(ch)
  {
    // the `i` flag matches [A-Z] after folding case; only ASCII letters fold onto it
    |ch| == 1 && 'a' <= ToLowerChar(ch[0]) <= 'z'
  }

  /** `isDigit`: one character 0-9, that is the printed form of a value 0-9; never a letter. */
  function IsDigit(n: string): (r: bool)
    ensures r ==> |n| == 1 && IsDigitChar(n[0]) && n == NatToString(DigitValue(n[0]))
    ensures r <==> exists v :: 0 <= v <= 9 && n == NatToString(v)
    ensures r ==> !IsAlpha(n)
  {
    |n| == 1 && IsDigitChar(n[0])
  }

  /** No string is both upper and lower case. */
  lemma CaseClassesDisjoint(ch: string)
    ensures !(IsUpperCase(ch) && IsLowerCase(ch))
  {
  }

  /** `toNotation(row, col)`: the letter with code 97 + col, then the decimal text of row + 1.
      Row 0 is rank 1 here, so on the board this names square (7 - row) * 8 + col. */
  function ToNotation(row: int, col: int): (s: string)
    requires 0 <= col + 97 < 0xD800
    ensures |s| >= 2 && s[0] as int == 97 + col && s[1..] == IntToString(row + 1)
    ensures 0 <= row < 8 && 0 <= col < 8 ==> s == SquareName((7 - row) * 8 + col)
  {
    [(col + 97) as char] + IntToString(row + 1)
  }

  datatype ColumnError = InvalidColumn(col: int)

  /** `getFile(col)`: throws unless 0 <= col <= 7, else the file letter, which is also the
      first character of `toNotation(_, col)`. */
  function GetFile(col: int): (r: Result<string, ColumnError>)
    ensures r.Failure? <==> col < 0 || col > 7
    ensures r.Failure? ==> r.error == InvalidColumn(col)
    ensures r.Success? ==> |r.value| == 1 && 'a' <= r.value[0] <= 'h'
    ensures r.Success? ==> forall row :: r.value == ToNotation(row, col)[..1]
  {
    if col < 0 || col > 7 then Failure(InvalidColumn(col))
    else Success([(col + 97) as char])
  }
}
