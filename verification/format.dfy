/** The `fmt` verbs the address book prints with: `%-20s` (left-aligned,
    padded on the right), `%2d` (right-aligned, padded on the left) and the
    decimal rendering of `%d`. Go measures a width in runes; a `char` here is
    one rune, so a width is a sequence length. */
module Format {
  import opened Results
  import GoStrings

  function Max(a: int, b: int): int {
    if a < b then b else a
  }

  /** `cell` shows `s` left-aligned in a field of at least `w` runes: `s`
      first and whole, then spaces up to the width, and nothing else. */
  predicate LeftAligned(cell: string, s: string, w: nat) {
    && |cell| == Max(|s|, w)
    && cell[..|s|] == s
    && forall i | |s| <= i < |cell| :: cell[i] == ' '
  }

  /** `cell` shows `s` right-aligned in a field of at least `w` runes:
      spaces up to the width, then `s` last and whole. */
  predicate RightAligned(cell: string, s: string, w: nat) {
    && |cell| == Max(|s|, w)
    && cell[|cell| - |s|..] == s
    && forall i | 0 <= i < |cell| - |s| :: cell[i] == ' '
  }

  /** `%-{w}s`. A value wider than `w` is printed whole, never cut. */
  function PadRight(s: string, w: nat): (r: string)
    ensures LeftAligned(r, s, w)
  {
    if |s| >= w then s else s + GoStrings.Repeat(' ', w - |s|)
  }

  /** `%{w}s`, and `%{w}d` applied to the decimal text of a number. */
  function PadLeft(s: string, w: nat): (r: string)
    ensures RightAligned(r, s, w)
  {
    if |s| >= w then s else GoStrings.Repeat(' ', w - |s|) + s
  }

  /** A left-aligned cell is fully determined by its text and width. */
  lemma LeftAlignedUnique(x: string, y: string, s: string, w: nat)
    requires LeftAligned(x, s, w) && LeftAligned(y, s, w)
    ensures x == y
  {
    assert forall i | 0 <= i < |x| :: x[i] == y[i] by {
      forall i | 0 <= i < |x|
        ensures x[i] == y[i]
      {
        if i < |s| {
          assert x[i] == x[..|s|][i] && y[i] == y[..|s|][i];
        }
      }
    }
  }

  /** A right-aligned cell is fully determined by its text and width. */
  lemma RightAlignedUnique(x: string, y: string, s: string, w: nat)
    requires RightAligned(x, s, w) && RightAligned(y, s, w)
    ensures x == y
  {
    var o := |x| - |s|;
    assert forall i | 0 <= i < |x| :: x[i] == y[i] by {
      forall i | 0 <= i < |x|
        ensures x[i] == y[i]
      {
        if o <= i {
          assert x[i] == x[o..][i - o] && y[i] == y[o..][i - o];
        }
      }
    }
  }

  /** The text of a left-aligned cell with its padding removed. */
  function TrimTrailingSpaces(s: string): (r: string)
    ensures |r| <= |s| && r == s[..|r|]
    ensures r == [] || r[|r| - 1] != ' '
    ensures forall i | |r| <= i < |s| :: s[i] == ' '
  {
    if |s| == 0 || s[|s| - 1] != ' ' then s else TrimTrailingSpaces(s[..|s| - 1])
  }

  /** The text of a right-aligned cell with its padding removed. */
  function TrimLeadingSpaces(s: string): (r: string)
    ensures |r| <= |s| && r == s[|s| - |r|..]
    ensures r == [] || r[0] != ' '
    ensures forall i | 0 <= i < |s| - |r| :: s[i] == ' '
  {
    if |s| == 0 || s[0] != ' ' then s else TrimLeadingSpaces(s[1..])
  }

  /** Padding is undone by trimming, as long as the value does not itself
      end in a space. */
  lemma PadRightTrimmed(s: string, w: nat)
    requires s == [] || s[|s| - 1] != ' '
    ensures TrimTrailingSpaces(PadRight(s, w)) == s
  {
    var p := PadRight(s, w);
    assert p[..|s|] == s;
  }

  /** Padding on the left is undone by trimming, as long as the value does
      not itself start with a space. */
  lemma PadLeftTrimmed(s: string, w: nat)
    requires s == [] || s[0] != ' '
    ensures TrimLeadingSpaces(PadLeft(s, w)) == s
  {
    var p := PadLeft(s, w);
    assert p[|p| - |s|..] == s;
  }

  // ---- decimal numbers (`%d`) ----

  predicate IsDigit(c: char) {
    '0' <= c <= '9'
  }

  function DigitChar(d: nat): (c: char)
    requires d < 10
    ensures IsDigit(c)
  {
    ('0' as int + d) as char
  }

  function DigitValue(c: char): (d: nat)
    requires IsDigit(c)
    ensures d < 10 && DigitChar(d) == c
  {
    c as int - '0' as int
  }

  predicate AllDigits(s: string) {
    forall i | 0 <= i < |s| :: IsDigit(s[i])
  }

  /** Decimal digits of a natural number, most significant first, without
      leading zeros. */
  function NatDigits(n: nat): (r: string)
    ensures |r| >= 1 && AllDigits(r)
    ensures |r| == 1 || r[0] != '0'
    ensures n < 10 <==> |r| == 1
    ensures n < 100 <==> |r| <= 2
    decreases n
  {
    if n < 10 then [DigitChar(n)] else NatDigits(n / 10) + [DigitChar(n % 10)]
  }

  /** Go's `%d`: a minus sign for negative numbers, then the digits. */
  function Decimal(n: int): (r: string)
    ensures |r| >= 1
    ensures r[0] == '-' <==> n < 0
    ensures r[0] != ' '
  {
    if n < 0 then "-" + NatDigits(-n) else NatDigits(n)
  }

  /** The value of a string of decimal digits. */
  function ParseDigits(s: string): nat
    requires AllDigits(s)
  {
    if |s| == 0 then 0 else ParseDigits(s[..|s| - 1]) * 10 + DigitValue(s[|s| - 1])
  }

  /** Reads back what `%d` prints: an optional minus sign and at least one
      digit; anything else is rejected. */
  function ParseDecimal(s: string): Option<int> {
    if |s| > 0 && s[0] == '-' then
      (if |s| > 1 && AllDigits(s[1..]) then Some(0 - ParseDigits(s[1..])) else None)
    else if |s| > 0 && AllDigits(s) then Some(ParseDigits(s))
    else None
  }

  lemma {:induction false} ParseNatDigits(n: nat)
    ensures ParseDigits(NatDigits(n)) == n
    decreases n
  {
    if n >= 10 {
      var r := NatDigits(n);
      assert r[..|r| - 1] == NatDigits(n / 10);
      ParseNatDigits(n / 10);
    }
  }

  /** `%d` loses nothing: the printed text reads back as the same number. */
  lemma DecimalRoundTrip(n: int)
    ensures ParseDecimal(Decimal(n)) == Some(n)
  {
    if n < 0 {
      NegativeRoundTrip(-n);
    } else {
      var digits := NatDigits(n);
      assert IsDigit(digits[0]);
      ParseNatDigits(n);
    }
  }

  lemma NegativeRoundTrip(m: nat)
    requires m > 0
    ensures ParseDecimal("-" + NatDigits(m)) == Some(0 - m)
  {
    var digits := NatDigits(m);
    assert ("-" + digits)[1..] == digits;
    ParseNatDigits(m);
  }

  /** Numbers from -9 to 99 print in at most two runes, so `%2d` keeps them
      in a two-rune column; any other number widens it. */
  lemma DecimalFitsTwo(n: int)
    ensures |Decimal(n)| <= 2 <==> -9 <= n <= 99
  {
  }
}
