/**
 * Grid coordinate enumerators, time formatting and the score formula
 * (sudoku/utils/helpers.py). Python's `//` and `%` by a positive constant
 * round toward negative infinity, which is what Dafny's `/` and `%` do for a
 * positive divisor, so they are written as `/` and `%` below.
 */
module Helpers {
  import opened Config
  import opened Wrappers

  type Coord = (int, int)

  /** The nine cells of the 3x3 block holding (row, col), row by row. */
  function GetBlockCoordinates(row: int, col: int): (cells: seq<Coord>)
    ensures |cells| == GRID_SIZE
    ensures forall i, j :: 0 <= i < j < |cells| ==> cells[i] != cells[j]
    ensures (row, col) in cells
    ensures forall p :: p in cells <==> p.0 / 3 == row / 3 && p.1 / 3 == col / 3
    ensures IsValidCoordinate(row, col) ==> forall p :: p in cells ==> IsValidCoordinate(p.0, p.1)
  {
    var startRow := row - row % 3;
    var startCol := col - col % 3;
    var cells := seq(9, k => (startRow + k / 3, startCol + k % 3));
    BlockListInRange(startRow, startCol, cells);
    SameBlockIffInRange(row);
    SameBlockIffInRange(col);
    assert 0 <= row < GRID_SIZE ==> 0 <= startRow <= 6;
    assert 0 <= col < GRID_SIZE ==> 0 <= startCol <= 6;
    cells
  }

  /** The comprehension lists the nine cells of the 3x3 square at (startRow, startCol), each once. */
  lemma BlockListInRange(startRow: int, startCol: int, cells: seq<Coord>)
    requires cells == seq(9, k => (startRow + k / 3, startCol + k % 3))
    ensures |cells| == 9
    ensures forall i, j :: 0 <= i < j < |cells| ==> cells[i] != cells[j]
    ensures forall p :: p in cells <==> startRow <= p.0 < startRow + 3 && startCol <= p.1 < startCol + 3
  {
    assert cells == [(startRow, startCol), (startRow, startCol + 1), (startRow, startCol + 2),
                     (startRow + 1, startCol), (startRow + 1, startCol + 1), (startRow + 1, startCol + 2),
                     (startRow + 2, startCol), (startRow + 2, startCol + 1), (startRow + 2, startCol + 2)];
  }

  /** Integers sharing `x / 3` are exactly those from `x - x % 3` to two past it. */
  lemma SameBlockIffInRange(x: int)
    ensures forall y :: y / 3 == x / 3 <==> x - x % 3 <= y < x - x % 3 + 3
  {
  }

  /** The cells (row, 0) to (row, 8), in column order. */
  function GetRowCoordinates(row: int): (cells: seq<Coord>)
    ensures |cells| == GRID_SIZE
    ensures forall i :: 0 <= i < |cells| ==> cells[i] == (row, i)
    ensures forall p :: p in cells <==> p.0 == row && 0 <= p.1 < GRID_SIZE
  {
    seq(GRID_SIZE, c => (row, c))
  }

  /** The cells (0, col) to (8, col), in row order. */
  function GetColCoordinates(col: int): (cells: seq<Coord>)
    ensures |cells| == GRID_SIZE
    ensures forall i :: 0 <= i < |cells| ==> cells[i] == (i, col)
    ensures forall p :: p in cells <==> 0 <= p.0 < GRID_SIZE && p.1 == col
  {
    seq(GRID_SIZE, r => (r, col))
  }

  predicate IsValidCoordinate(row: int, col: int) {
    0 <= row < GRID_SIZE && 0 <= col < GRID_SIZE
  }

  /** A coordinate is on the grid exactly when its row enumeration contains it. */
  lemma ValidCoordinateIffInRowAndColumn(row: int, col: int)
    ensures IsValidCoordinate(row, col) <==> ((row, col) in GetRowCoordinates(row) && (row, col) in GetColCoordinates(col))
  {
  }

  // ---------------------------------------------------------------------------
  // Time formatting

  function DigitChar(d: int): char
    requires 0 <= d < 10
  {
    ('0' as int + d) as char
  }

  predicate IsDigit(ch: char) {
    '0' <= ch <= '9'
  }

  predicate AllDigits(s: string) {
    forall i :: 0 <= i < |s| ==> IsDigit(s[i])
  }

  /** Python's `str(n)` for a non-negative integer: decimal, no leading zeros. */
  function NatToString(n: nat): (s: string)
    ensures |s| >= 1 && AllDigits(s)
    ensures n < 10 <==> |s| == 1
    ensures n >= 10 ==> s[0] != '0'
  {
    if n < 10 then [DigitChar(n)] else NatToString(n / 10) + [DigitChar(n % 10)]
  }

  /** `n` zero characters. */
  function Zeros(n: nat): (z: string)
    ensures |z| == n && forall i :: 0 <= i < n ==> z[i] == '0'
  {
    if n == 0 then "" else Zeros(n - 1) + "0"
  }

  /** Left-pads with '0' up to `width` characters. */
  function ZeroPad(s: string, width: nat): (r: string)
    ensures |r| == if |s| >= width then |s| else width
    decreases width - |s|
  {
    if |s| >= width then s else ZeroPad("0" + s, width)
  }

  /** The padding is only zeros, and the text follows them unchanged. */
  lemma {:induction false} ZeroPadIsZerosThenText(s: string, width: nat)
    ensures ZeroPad(s, width) == Zeros(|ZeroPad(s, width)| - |s|) + s
    decreases width - |s|
  {
    if |s| >= width {
      assert s == Zeros(0) + s;
    } else {
      var r := ZeroPad("0" + s, width);
      ZeroPadIsZerosThenText("0" + s, width);
      assert Zeros(|r| - |s|) == Zeros(|r| - |s| - 1) + "0";
    }
  }

  /**
   * Python's `f"{n:02d}"`: zero fill to width 2, counting the sign, with the
   * zeros placed after the sign.
   */
  function PadTwo(n: int): string {
    if n < 0 then "-" + ZeroPad(NatToString(-n), 1) else ZeroPad(NatToString(n), 2)
  }

  /** `format_time`: minutes and seconds, each at least two characters, joined by ':'. */
  function FormatTime(seconds: int): string {
    PadTwo(seconds / 60) + ":" + PadTwo(seconds % 60)
  }

  /** Decimal value of a digit string (the empty string reads as 0). */
  function ParseNat(s: string): nat {
    if s == [] then 0
    else ParseNat(s[..|s| - 1]) * 10 + (if IsDigit(s[|s| - 1]) then s[|s| - 1] as int - '0' as int else 0)
  }

  /** Reads back "mm:ss": the minutes field before the last ':' and two digits after it. */
  function ParseTime(s: string): Option<int> {
    if |s| >= 5 && s[|s| - 3] == ':' && AllDigits(s[..|s| - 3]) && AllDigits(s[|s| - 2..])
    then Some(ParseNat(s[..|s| - 3]) * 60 + ParseNat(s[|s| - 2..]))
    else None
  }

  lemma {:induction false} ParseNatToString(n: nat)
    ensures ParseNat(NatToString(n)) == n
  {
    if n >= 10 {
      var s := NatToString(n);
      assert s[..|s| - 1] == NatToString(n / 10);
      ParseNatToString(n / 10);
    }
  }

  /** A non-negative number padded to two digits is all digits and reads back as itself. */
  lemma PadTwoReadsBack(n: nat)
    ensures |PadTwo(n)| >= 2 && AllDigits(PadTwo(n)) && ParseNat(PadTwo(n)) == n
    ensures n < 100 ==> |PadTwo(n)| == 2
  {
    var s := NatToString(n);
    ParseNatToString(n);
    if n < 10 {
      assert ZeroPad(s, 2) == "0" + s;
      assert ("0" + s)[..1] == "0";
    } else {
      assert ZeroPad(s, 2) == s;
      if n < 100 {
        assert s == NatToString(n / 10) + [DigitChar(n % 10)];
      }
    }
  }

  /**
   * For a non-negative number of seconds the text is "mm:ss": a minutes field
   * of at least two digits, ':' and a two-digit seconds field below 60, and the
   * fields give back the minutes and the remaining seconds.
   */
  lemma FormatTimeFields(seconds: nat)
    ensures var s := FormatTime(seconds);
      |s| >= 5 && s[|s| - 3] == ':' &&
      |s[..|s| - 3]| >= 2 && AllDigits(s[..|s| - 3]) && AllDigits(s[|s| - 2..]) &&
      ParseNat(s[..|s| - 3]) == seconds / 60 &&
      ParseNat(s[|s| - 2..]) == seconds % 60 < 60
  {
    var m, sec := PadTwo(seconds / 60), PadTwo(seconds % 60);
    PadTwoReadsBack(seconds / 60);
    PadTwoReadsBack(seconds % 60);
    var s := FormatTime(seconds);
    assert s == m + ":" + sec;
    assert s[..|s| - 3] == m;
    assert s[|s| - 2..] == sec;
  }

  /** `format_time` loses nothing: minutes * 60 + seconds gives the input back. */
  lemma FormatTimeRoundTrip(seconds: nat)
    ensures ParseTime(FormatTime(seconds)) == Some(seconds)
  {
    FormatTimeFields(seconds);
    var s := FormatTime(seconds);
    var minutes, rest := ParseNat(s[..|s| - 3]), ParseNat(s[|s| - 2..]);
    assert minutes * 60 + rest == seconds;
    assert ParseTime(s) == Some(minutes * 60 + rest);
  }

  // ---------------------------------------------------------------------------
  // Scoring

  /** Python's `str.upper` on one character: ASCII letters, plus the two non-ASCII
      letters whose upper case is an ASCII letter (dotless i and long s). */
  function UpperChar(ch: char): char {
    if 'a' <= ch <= 'z' then (ch as int - 32) as char
    else if ch == 'ı' then 'I'
    else if ch == 'ſ' then 'S'
    else ch
  }

  function Upper(s: string): (r: string)
    ensures |r| == |s|
    ensures forall i :: 0 <= i < |s| ==> r[i] == UpperChar(s[i])
  {
    if s == [] then [] else [UpperChar(s[0])] + Upper(s[1..])
  }

  const BASE_SCORES: map<string, int> := map["EASY" := 100, "MEDIUM" := 200, "HARD" := 300]

  /** Base score looked up by upper-cased name; an unknown name counts as EASY. */
  function BaseScore(difficultyName: string): (base: int)
    ensures Upper(difficultyName) == "EASY" ==> base == 100
    ensures Upper(difficultyName) == "MEDIUM" ==> base == 200
    ensures Upper(difficultyName) == "HARD" ==> base == 300
    ensures Upper(difficultyName) !in BASE_SCORES ==> base == 100
    ensures base == 100 || base == 200 || base == 300
  {
    var key := Upper(difficultyName);
    if key in BASE_SCORES then BASE_SCORES[key] else BASE_SCORES["EASY"]
  }

  /** One point per full minute, at most half the base score. */
  function TimePenalty(base: int, timeSeconds: int): (penalty: int)
    ensures penalty <= base / 2 && penalty <= timeSeconds / 60
    ensures timeSeconds >= 0 && base >= 0 ==> penalty >= 0
    ensures penalty == base / 2 || penalty == timeSeconds / 60
  {
    if timeSeconds / 60 < base / 2 then timeSeconds / 60 else base / 2
  }

  /** `calculate_difficulty_score`: base minus time and hint penalties, never below 0. */
  function CalculateDifficultyScore(difficultyName: string, timeSeconds: int, hintsUsed: int): (score: int)
    ensures score >= 0
    ensures timeSeconds >= 0 && hintsUsed >= 0 ==> score <= BaseScore(difficultyName)
    ensures hintsUsed <= 0 ==> score >= BaseScore(difficultyName) - BaseScore(difficultyName) / 2
    ensures hintsUsed == 0 ==> score == BaseScore(difficultyName) - TimePenalty(BaseScore(difficultyName), timeSeconds)
  {
    var base := BaseScore(difficultyName);
    var timePenalty := TimePenalty(base, timeSeconds);
    var hintPenalty := hintsUsed * 20;
    var finalScore := base - timePenalty - hintPenalty;
    if finalScore < 0 then 0 else finalScore
  }

  /** The name is looked up case-insensitively. */
  lemma ScoreIgnoresCase(a: string, b: string, timeSeconds: int, hintsUsed: int)
    requires Upper(a) == Upper(b)
    ensures CalculateDifficultyScore(a, timeSeconds, hintsUsed) == CalculateDifficultyScore(b, timeSeconds, hintsUsed)
  {
  }

  /** More time or more hints never raise the score. */
  lemma ScoreIsAntitone(name: string, t1: int, t2: int, h1: int, h2: int)
    requires t1 <= t2 && h1 <= h2
    ensures CalculateDifficultyScore(name, t2, h2) <= CalculateDifficultyScore(name, t1, h1)
  {
    var base := BaseScore(name);
    assert t1 / 60 <= t2 / 60;
    assert TimePenalty(base, t1) <= TimePenalty(base, t2);
  }

  /** Each extra hint costs exactly 20 points unless the score is clamped at 0. */
  lemma EachHintCostsTwenty(name: string, timeSeconds: int, hintsUsed: int)
    ensures var before := CalculateDifficultyScore(name, timeSeconds, hintsUsed);
      var after := CalculateDifficultyScore(name, timeSeconds, hintsUsed + 1);
      (after > 0 ==> after == before - 20) && before - 20 <= after <= before
  {
  }
}
