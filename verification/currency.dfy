/** The salary field's currency input: it shows a whole number of cents as a dollar
    amount, turns whatever is typed or pasted into cents by keeping at most eight
    digits, and filters key presses. */
module Currency {
  import opened Common
  import opened Seqs
  import opened Text

  /** At most eight digits are kept: $999,999.99. */
  const MaxDigits: nat := 8
  const MaxCents: nat := 99_999_999

  // ------------------------------------------------------------------ parsing

  /** `parseCurrencyToCents`: the decimal value of the digits of `s`, in order; no
      digit at all reads as 0. */
  function ParseCurrencyToCents(s: string): (v: nat)
    ensures v < Pow10(|DigitsOf(s)|)
    ensures DigitsOf(s) == "" ==> v == 0
  {
    DecimalValue(DigitsOf(s))
  }

  /** Characters other than digits do not matter. */
  lemma ParseIgnoresNonDigits(s: string)
    ensures ParseCurrencyToCents(s) == ParseCurrencyToCents(DigitsOf(s))
  {
    DigitsOfDigits(DigitsOf(s));
  }

  /** A non-digit anywhere changes nothing; a digit appended shifts the value one place. */
  lemma ParseAppend(s: string, c: char)
    ensures !IsDigit(c) ==> ParseCurrencyToCents(s + [c]) == ParseCurrencyToCents(s)
    ensures IsDigit(c) ==> ParseCurrencyToCents(s + [c]) == ParseCurrencyToCents(s) * 10 + DigitValue(c)
  {
    DigitsOfAppend(s, [c]);
    if IsDigit(c) {
      DigitsOfDigits([c]);
      DecimalValueAppend(DigitsOf(s), [c]);
    } else {
      DigitsOfChar(c);
      assert DigitsOf(s) + [] == DigitsOf(s);
    }
  }

  /** `digits.slice(0, 8)`. */
  function FirstDigits(ds: string): (r: string)
    ensures |r| <= MaxDigits
    ensures r <= ds
    ensures |ds| <= MaxDigits ==> r == ds
    ensures |ds| > MaxDigits ==> |r| == MaxDigits
  {
    ds[..Min(MaxDigits, |ds|)]
  }

  /** The cents an edit or a paste produces: the value of the first eight digits of
      the text, which is the whole text's value when it has no more digits than that. */
  function CappedCents(text: string): (v: nat)
    ensures v <= MaxCents
    ensures v == ParseCurrencyToCents(FirstDigits(DigitsOf(text)))
    ensures |DigitsOf(text)| <= MaxDigits ==> v == ParseCurrencyToCents(text)
  {
    var ds := FirstDigits(DigitsOf(text));
    assert AllDigits(ds) by {
      forall i | 0 <= i < |ds|
        ensures IsDigit(ds[i])
      {
        assert ds[i] == DigitsOf(text)[i];
      }
    }
    DigitsOfDigits(ds);
    assert Pow10(8) == 100_000_000;
    Pow10Monotone(|ds|, 8);
    DecimalValue(ds)
  }

  lemma {:induction false} Pow10Monotone(j: nat, k: nat)
    requires j <= k
    ensures Pow10(j) <= Pow10(k)
  {
    if j < k {
      Pow10Monotone(j, k - 1);
    }
  }

  // ---------------------------------------------------------------- formatting

  /** The decimal digits of `n`, without leading zeros ("0" for zero). */
  function Decimal(n: nat): (r: string)
    ensures AllDigits(r) && |r| >= 1
    ensures DecimalValue(r) == n
  {
    if n < 10 then [DigitChar(n)]
    else
      var r := Decimal(n / 10) + [DigitChar(n % 10)];
      assert r[..|r| - 1] == Decimal(n / 10);
      r
  }

  /** A number below `10^k` (with `k >= 1`) has at most `k` digits. */
  lemma {:induction false} DecimalLength(n: nat, k: nat)
    requires k >= 1 && n < Pow10(k)
    ensures |Decimal(n)| <= k
  {
    assert Pow10(1) == 10;
    if n >= 10 {
      assert k >= 2;
      assert n / 10 < Pow10(k - 1);
      DecimalLength(n / 10, k - 1);
    }
  }

  /** Exactly two digits, with a leading zero: the cents part. */
  function TwoDigits(n: nat): (r: string)
    requires n < 100
    ensures |r| == 2 && AllDigits(r)
    ensures DecimalValue(r) == n
  {
    var r := [DigitChar(n / 10), DigitChar(n % 10)];
    assert r[..1] == [DigitChar(n / 10)];
    r
  }

  /** Thousands separators: a comma before every group of three digits from the right. */
  function Group(ds: string): (r: string)
    decreases |ds|
  {
    if |ds| <= 3 then ds else Group(ds[..|ds| - 3]) + "," + ds[|ds| - 3..]
  }

  lemma AllDigitsSplit(ds: string, k: nat)
    requires AllDigits(ds) && k <= |ds|
    ensures AllDigits(ds[..k]) && AllDigits(ds[k..])
  {
    assert forall i :: 0 <= i < k ==> ds[..k][i] == ds[i];
    assert forall i :: 0 <= i < |ds| - k ==> ds[k..][i] == ds[k + i];
  }

  lemma {:induction false} GroupKeepsDigits(ds: string)
    requires AllDigits(ds)
    ensures DigitsOf(Group(ds)) == ds
    decreases |ds|
  {
    if |ds| <= 3 {
      DigitsOfDigits(ds);
    } else {
      var hi, lo := ds[..|ds| - 3], ds[|ds| - 3..];
      AllDigitsSplit(ds, |ds| - 3);
      GroupKeepsDigits(hi);
      var g := Group(hi);
      assert Group(ds) == (g + ",") + lo;
      DigitsOfAppend(g + ",", lo);
      DigitsOfAppend(g, ",");
      DigitsOfChar(',');
      DigitsOfDigits(lo);
      assert DigitsOf(g + ",") == hi;
      assert hi + lo == ds;
    }
  }

  /** `formatToCurrency` for a whole number of cents: "" for zero, otherwise the US
      dollar amount with thousands separators and two decimals ("$1,234.56"). */
  function FormatToCurrency(cents: nat): (r: string)
    ensures r == "" <==> cents == 0
  {
    if cents == 0 then ""
    else "$" + Group(Decimal(cents / 100)) + "." + TwoDigits(cents % 100)
  }

  /** The digits a formatted amount shows: the dollars, then exactly two for the cents. */
  lemma FormatDigits(cents: nat)
    requires cents > 0
    ensures DigitsOf(FormatToCurrency(cents)) == Decimal(cents / 100) + TwoDigits(cents % 100)
  {
    var dec, two := Decimal(cents / 100), TwoDigits(cents % 100);
    var g := Group(dec);
    var head := "$" + g;
    assert FormatToCurrency(cents) == (head + ".") + two;
    GroupKeepsDigits(dec);
    DigitsOfChar('$');
    DigitsOfChar('.');
    DigitsOfAppend("$", g);
    assert DigitsOf(head) == dec;
    DigitsOfAppend(head, ".");
    assert DigitsOf(head + ".") == dec;
    DigitsOfAppend(head + ".", two);
    DigitsOfDigits(two);
  }

  lemma SplitCents(cents: nat)
    ensures cents == (cents / 100) * 100 + cents % 100
  {
  }

  /** Reading back what is displayed gives the amount: parse is a left inverse of format. */
  lemma ParseFormatRoundTrip(cents: nat)
    ensures ParseCurrencyToCents(FormatToCurrency(cents)) == cents
  {
    if cents > 0 {
      var dec, two := Decimal(cents / 100), TwoDigits(cents % 100);
      FormatDigits(cents);
      DecimalValueAppend(dec, two);
      assert Pow10(2) == 100;
      assert DecimalValue(dec + two) == (cents / 100) * 100 + cents % 100;
      SplitCents(cents);
    }
  }

  // ------------------------------------------------------------------- editing

  /** What an edit leaves in the field: the text shown and the cents reported. */
  datatype Entry = Entry(display: string, cents: nat)

  /** `handleInputChange`: strip to digits, keep the first eight, report the cents and
      show them formatted. */
  function HandleInputChange(value: string): (r: Entry)
    ensures r.cents <= MaxCents
    ensures |DigitsOf(value)| <= MaxDigits ==> r.cents == ParseCurrencyToCents(value)
    ensures |DigitsOf(value)| > MaxDigits ==> r.cents == ParseCurrencyToCents(DigitsOf(value)[..MaxDigits])
    ensures r.display == FormatToCurrency(r.cents)
    ensures ParseCurrencyToCents(r.display) == r.cents
  {
    var cents := CappedCents(value);
    ParseFormatRoundTrip(cents);
    Entry(FormatToCurrency(cents), cents)
  }

  /** `handlePaste`: the pasted text goes through the same strip-and-cap as typing. */
  function HandlePaste(clip: string): (r: Entry)
    ensures r == HandleInputChange(clip)
  {
    var cents := DecimalValue(FirstDigits(DigitsOf(clip)));
    Entry(FormatToCurrency(cents), cents)
  }

  /** Digits in the displayed text of an amount below 10^7: at most seven. */
  lemma ShownDigitsBelowCap(cents: nat)
    requires cents < 10_000_000
    ensures |DigitsOf(FormatToCurrency(cents))| <= 7
  {
    if cents > 0 {
      FormatDigits(cents);
      assert Pow10(5) == 100_000;
      DecimalLength(cents / 100, 5);
    }
  }

  /** Typing a digit at the end of the shown amount appends it: the amount becomes ten
      times as much plus the digit, as long as it had fewer than eight digits. */
  lemma TypingAppendsDigit(cents: nat, d: char)
    requires cents < 10_000_000 && IsDigit(d)
    ensures HandleInputChange(FormatToCurrency(cents) + [d]).cents == cents * 10 + DigitValue(d)
  {
    var shown := FormatToCurrency(cents);
    ShownDigitsBelowCap(cents);
    DigitsOfAppend(shown, [d]);
    DigitsOfDigits([d]);
    ParseAppend(shown, d);
    ParseFormatRoundTrip(cents);
  }

  /** At eight digits a further typed digit is dropped: the amount stays. */
  lemma TypingAtCapKeepsAmount(cents: nat, d: char)
    requires 10_000_000 <= cents <= MaxCents && IsDigit(d)
    ensures HandleInputChange(FormatToCurrency(cents) + [d]).cents == cents
  {
    var shown := FormatToCurrency(cents);
    var dollars := Decimal(cents / 100);
    FormatDigits(cents);
    assert Pow10(6) == 1_000_000 && Pow10(5) == 100_000;
    DecimalLength(cents / 100, 6);
    if |dollars| <= 5 {
      Pow10Monotone(|dollars|, 5);
      assert false;
    }
    var ds := DigitsOf(shown);
    assert |ds| == 8;
    DigitsOfAppend(shown, [d]);
    DigitsOfDigits([d]);
    assert FirstDigits(ds + [d]) == ds;
    ParseFormatRoundTrip(cents);
  }

  /** The shown amount ends in the last digit of the cents, and without it has at
      most eight digits. */
  lemma ShownEndsInLastDigit(cents: nat)
    requires 0 < cents <= MaxCents
    ensures var shown := FormatToCurrency(cents);
      && |shown| > 0
      && IsDigit(shown[|shown| - 1]) && DigitValue(shown[|shown| - 1]) == cents % 10
      && |DigitsOf(shown[..|shown| - 1])| <= MaxDigits
  {
    var shown := FormatToCurrency(cents);
    FormatDigits(cents);
    var pre := shown[..|shown| - 1];
    var last := shown[|shown| - 1];
    assert shown == pre + [last];
    assert last == TwoDigits(cents % 100)[1];
    DigitsOfAppend(pre, [last]);
    DigitsOfDigits([last]);
    assert Pow10(6) == 1_000_000;
    DecimalLength(cents / 100, 6);
  }

  /** Deleting the last character of the shown amount drops its last digit. */
  lemma BackspaceDropsDigit(cents: nat)
    requires 0 < cents <= MaxCents
    ensures var shown := FormatToCurrency(cents);
      HandleInputChange(shown[..|shown| - 1]).cents == cents / 10
  {
    var shown := FormatToCurrency(cents);
    ShownEndsInLastDigit(cents);
    var pre := shown[..|shown| - 1];
    var last := shown[|shown| - 1];
    assert shown == pre + [last];
    ParseAppend(pre, last);
    ParseFormatRoundTrip(cents);
  }

  // ---------------------------------------------------------------- key filter

  /** `handleKeyDown`: the keys whose default action is let through. */
  predicate KeyAllowed(keyCode: int, ctrl: bool) {
    || keyCode in {8, 9, 27, 13, 46, 35, 36, 37, 39}
    || (ctrl && keyCode in {65, 67, 86, 88})
    || 48 <= keyCode <= 57
  }

  /** Without Ctrl, the only keys let through besides editing and navigation are the
      digit-row keys; letters, the up and down arrows and the numeric keypad are
      blocked. */
  lemma KeyFilterBlocks(keyCode: int)
    ensures KeyAllowed(keyCode, false) <==>
      (keyCode in {8, 9, 13, 27, 35, 36, 37, 39, 46} || 48 <= keyCode <= 57)
    ensures 65 <= keyCode <= 90 ==> !KeyAllowed(keyCode, false)
    ensures 96 <= keyCode <= 105 ==> !KeyAllowed(keyCode, true)
    ensures keyCode == 38 || keyCode == 40 ==> !KeyAllowed(keyCode, true)
  {
  }

  /** Ctrl lets exactly select-all, copy, paste and cut through in addition. */
  lemma CtrlShortcutsAllowed(keyCode: int)
    ensures KeyAllowed(keyCode, true) && !KeyAllowed(keyCode, false) <==> keyCode in {65, 67, 86, 88}
  {
  }
}
