/**
  The line formatting of main1.cpp's LCD helper: each line is padded with
  spaces and cut so that exactly one 16-column row is overwritten.
 */
module LcdLine {
  const LCD_COLUMNS: nat := 16

  function Spaces(n: nat): (r: string)
    ensures |r| == n
    ensures forall i :: 0 <= i < n ==> r[i] == ' '
  {
    if n == 0 then [] else Spaces(n - 1) + [' ']
  }

  /** The row actually printed for `line`: a short line extended with
      spaces, a long one cut to its first LCD_COLUMNS characters. */
  function FitLine(line: string): (r: string)
    ensures |r| == LCD_COLUMNS
    ensures |line| >= LCD_COLUMNS ==> r == line[..LCD_COLUMNS]
    ensures |line| < LCD_COLUMNS ==> r[..|line|] == line
    ensures forall i :: |line| <= i < LCD_COLUMNS ==> r[i] == ' '
  {
    if |line| >= LCD_COLUMNS then line[..LCD_COLUMNS] else line + Spaces(LCD_COLUMNS - |line|)
  }

  /** The firmware's loop: append one space at a time while the line is
      shorter than the display, then cut whatever is longer. */
  method PadLine(line: string) returns (r: string)
    ensures |r| == LCD_COLUMNS
    ensures r <= line || line <= r
    ensures r == FitLine(line)
  {
    r := line;
    while |r| < LCD_COLUMNS
      invariant |line| <= |r|
      invariant |line| < LCD_COLUMNS ==> |r| <= LCD_COLUMNS
      invariant r == line + Spaces(|r| - |line|)
      decreases LCD_COLUMNS - |r|
    {
      r := r + " ";
    }
    if |r| > LCD_COLUMNS {
      r := r[..LCD_COLUMNS];
    }
    assert |line| >= LCD_COLUMNS ==> r == line[..LCD_COLUMNS];
  }

  /** Formatting a formatted row changes nothing. */
  lemma FitLineIdempotent(line: string)
    ensures FitLine(FitLine(line)) == FitLine(line)
  {
  }

  /** Trailing spaces make no difference to the printed row. */
  lemma {:induction false} FitLineIgnoresTrailingSpaces(line: string, n: nat)
    ensures FitLine(line + Spaces(n)) == FitLine(line)
  {
    var a := FitLine(line + Spaces(n));
    var b := FitLine(line);
    forall i | 0 <= i < LCD_COLUMNS
      ensures a[i] == b[i]
    {
      if i < |line| {
        assert (line + Spaces(n))[i] == line[i];
      } else if i < |line| + n {
        assert (line + Spaces(n))[i] == ' ';
      }
    }
  }
}
