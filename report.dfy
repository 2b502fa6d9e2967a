/**
 * The pure formatting pieces of the diff report: the line-number column and
 * the one-character sign of a change.
 */
module Report {
  import opened Wrappers

  // ---------------------------------------------------------------------------
  // Decimal rendering of line numbers
  // ---------------------------------------------------------------------------

  predicate IsDigit(c: char)
  {
    '0' <= c <= '9'
  }

  function DigitChar(d: nat): (c: char)
    requires d < 10
    ensures IsDigit(c) && c as int - '0' as int == d
  {
    (d + '0' as int) as char
  }

  /** The decimal digits of `n`, most significant first, with no leading zero. */
  function Decimal(n: nat): (r: string)
    ensures 1 <= |r|
    ensures forall i :: 0 <= i < |r| ==> IsDigit(r[i])
    ensures r[0] == '0' ==> n == 0
  {
    if n < 10 then [DigitChar(n)] else Decimal(n / 10) + [DigitChar(n % 10)]
  }

  /** The number a string of decimal digits denotes. */
  function DecimalValue(s: string): nat
    requires forall i :: 0 <= i < |s| ==> IsDigit(s[i])
  {
    if s == [] then 0
    else
      var last := s[|s| - 1];
      assert IsDigit(last);
      DecimalValue(s[..|s| - 1]) * 10 + (last as int - '0' as int)
  }

  function Pow10(k: nat): (r: nat)
    ensures r >= 1
  {
    if k == 0 then 1 else 10 * Pow10(k - 1)
  }

  /** Reading the digits back gives the number. */
  lemma {:induction false} DecimalRoundTrip(n: nat)
    ensures DecimalValue(Decimal(n)) == n
  {
    if n >= 10 {
      var d := Decimal(n);
      assert d[..|d| - 1] == Decimal(n / 10);
      DecimalRoundTrip(n / 10);
    }
  }

  /** `n` fits in `k` digits exactly when it is below 10 to the `k`. */
  lemma {:induction false} DecimalWidth(n: nat, k: nat)
    requires 1 <= k
    ensures |Decimal(n)| <= k <==> n < Pow10(k)
  {
    if n >= 10 {
      if k == 1 {
        assert |Decimal(n)| == |Decimal(n / 10)| + 1;
      } else {
        DecimalWidth(n / 10, k - 1);
        assert n / 10 < Pow10(k - 1) <==> n < 10 * Pow10(k - 1);
      }
    } else {
      PowerAtLeastTen(k);
    }
  }

  lemma PowerAtLeastTen(k: nat)
    requires 1 <= k
    ensures Pow10(k) >= 10
  {
  }

  // ---------------------------------------------------------------------------
  // The line-number column
  // ---------------------------------------------------------------------------

  function Spaces(n: nat): (r: string)
    ensures |r| == n && forall i :: 0 <= i < n ==> r[i] == ' '
  {
    if n == 0 then "" else Spaces(n - 1) + " "
  }

  /**
   * The column shown for a zero-based line index: four spaces when the line
   * has no counterpart, otherwise the one-based line number left-aligned and
   * padded with spaces to width four, never cut when it is wider.
   */
  function LineLabel(index: Option<nat>): (r: string)
    ensures index.None? ==> r == "    "
    ensures index.Some? ==>
      var d := Decimal(index.value + 1);
      |r| == (if |d| < 4 then 4 else |d|) && r[..|d|] == d
      && forall j :: |d| <= j < |r| ==> r[j] == ' '
  {
    match index
    case None => "    "
    case Some(i) =>
      var d := Decimal(i + 1);
      d + Spaces(if |d| < 4 then 4 - |d| else 0)
  }

  /** `s` without its trailing spaces. */
  function TrimEndSpaces(s: string): string
  {
    if s != [] && s[|s| - 1] == ' ' then TrimEndSpaces(s[..|s| - 1]) else s
  }

  lemma {:induction false} TrimPadding(d: string, n: nat)
    requires d != [] && d[|d| - 1] != ' '
    ensures TrimEndSpaces(d + Spaces(n)) == d
  {
    if n > 0 {
      assert (d + Spaces(n))[..|d| + n - 1] == d + Spaces(n - 1);
      TrimPadding(d, n - 1);
    }
  }

  /** The column can be read back: without its padding it is the one-based line number. */
  lemma LineLabelReadsBack(i: nat)
    ensures var t := TrimEndSpaces(LineLabel(Some(i)));
      (forall j :: 0 <= j < |t| ==> IsDigit(t[j])) && DecimalValue(t) == i + 1
  {
    var d := Decimal(i + 1);
    TrimPadding(d, if |d| < 4 then 4 - |d| else 0);
    DecimalRoundTrip(i + 1);
  }

  /** The column is exactly four characters wide for line numbers up to 9999, and wider beyond. */
  lemma LineLabelWidth(i: nat)
    ensures |LineLabel(Some(i))| == 4 <==> i + 1 < 10000
  {
    DecimalWidth(i + 1, 4);
    assert Pow10(4) == 10000;
  }

  // ---------------------------------------------------------------------------
  // The sign column
  // ---------------------------------------------------------------------------

  /** The kind of a change in the diff. */
  datatype ChangeTag = Delete | Insert | Equal

  /** The one-character sign shown for a change: "-" removed, "+" added, " " kept. */
  function Sign(tag: ChangeTag): (r: string)
    ensures |r| == 1
    ensures r == "-" <==> tag == Delete
    ensures r == "+" <==> tag == Insert
    ensures r == " " <==> tag == Equal
  {
    match tag
    case Delete => "-"
    case Insert => "+"
    case Equal => " "
  }

  /** The change kind a sign stands for, if any. */
  function TagOfSign(sign: string): Option<ChangeTag>
  {
    if sign == "-" then Some(Delete)
    else if sign == "+" then Some(Insert)
    else if sign == " " then Some(Equal)
    else None
  }

  /** Every sign reads back as the change it was shown for, so no two kinds share a sign. */
  lemma SignRoundTrip(tag: ChangeTag)
    ensures TagOfSign(Sign(tag)) == Some(tag)
  {
  }
}
