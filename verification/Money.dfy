/** Decimal money (formatBaseUnits in backend/src/chain-config/amount.ts; moneyParts, group
    and toBaseUnits in frontend/lib/money.ts). The number of decimals of the asset is a
    parameter. */
module Money {
  import opened Modular
  import opened Wrappers
  import opened Hex
  import opened Pattern

  predicate IsDigit(c: char) { '0' <= c <= '9' }

  predicate IsDigits(s: string) { forall i :: 0 <= i < |s| ==> IsDigit(s[i]) }

  function DigitValue(c: char): (v: int)
    requires IsDigit(c)
    ensures 0 <= v < 10
  {
    c as int - '0' as int
  }

  function DigitChar(v: int): (c: char)
    requires 0 <= v < 10
    ensures IsDigit(c) && DigitValue(c) == v
  {
    '0' + v as char
  }

  /** `BigInt(s)` on digits. */
  function Parse(s: string): nat
    requires IsDigits(s)
  {
    if s == [] then 0 else 10 * Parse(s[..|s| - 1]) + DigitValue(s[|s| - 1])
  }

  /** `n.toString()`. */
  function Print(n: nat): (s: string)
    ensures s != [] && IsDigits(s) && Parse(s) == n
  {
    if n < 10 then
      assert [DigitChar(n)][..0] == [];
      [DigitChar(n)]
    else
      var s := Print(n / 10) + [DigitChar(n % 10)];
      assert s[..|s| - 1] == Print(n / 10);
      s
  }

  lemma {:induction false} ParseConcat(s: string, t: string)
    requires IsDigits(s) && IsDigits(t)
    ensures IsDigits(s + t) && Parse(s + t) == Parse(s) * Pow(10, |t|) + Parse(t)
  {
    if t == [] {
      assert s + t == s;
    } else {
      var k := |t| - 1;
      ParseConcat(s, t[..k]);
      assert (s + t)[..|s| + k] == s + t[..k];
      MulAssoc(10, Parse(s), Pow(10, k));
      MulAssoc(Parse(s), 10, Pow(10, k));
    }
  }

  lemma {:induction false} ParseZeros(n: nat)
    ensures IsDigits(Zeros(n)) && Parse(Zeros(n)) == 0
  {
    if n > 0 {
      ParseZeros(n - 1);
      assert Zeros(n)[..n - 1] == Zeros(n - 1);
    }
  }

  /** `s.replace(/0+$/, "")`. */
  function StripZeros(s: string): string
  {
    if s == [] || s[|s| - 1] != '0' then s else StripZeros(s[..|s| - 1])
  }

  /** frac is what tail starts with, and only zeros follow. */
  ghost predicate Shows(frac: string, tail: string)
  {
    |frac| <= |tail| && tail == frac + Zeros(|tail| - |frac|)
  }

  lemma {:induction false} StripShows(s: string)
    ensures Shows(StripZeros(s), s)
  {
    if s == [] || s[|s| - 1] != '0' {
      assert s == s + Zeros(0);
    } else {
      var p, r := s[..|s| - 1], StripZeros(s);
      StripShows(p);
      assert s == p + "0";
      OneMoreZero(r, |p| - |r|);
    }
  }

  lemma {:induction false} OneMoreZero(r: string, n: nat)
    ensures r + Zeros(n) + "0" == r + Zeros(n + 1)
  {
  }

  lemma {:induction false} ShowsDigits(frac: string, tail: string)
    requires Shows(frac, tail) && IsDigits(tail)
    ensures IsDigits(frac)
  {
    assert forall i :: 0 <= i < |frac| ==> frac[i] == tail[i];
  }

  function PadEnd(s: string, n: nat): string
  {
    if |s| >= n then s else s + Zeros(n - |s|)
  }

  /** Padding to a width that is at least the length, with the digit string kept. */
  lemma {:induction false} PadKeepsValue(s: string, n: nat)
    requires IsDigits(s)
    ensures var p := PadStart(s, n); IsDigits(p) && Parse(p) == Parse(s) && |p| >= n
  {
    if |s| < n {
      ParseZeros(n - |s|);
      ParseConcat(Zeros(n - |s|), s);
    }
  }

  // ------------------------------------------------------------------ printers

  /** `formatBaseUnits` for a registered asset. */
  function FormatBaseUnits(amount: int, decimals: nat): string
  {
    if amount < 0 then "-" + FormatMagnitude(-amount, decimals) else FormatMagnitude(amount, decimals)
  }

  /** The digits of n, padded so that at least one stands before the point. */
  function Padded(n: nat, decimals: nat): (s: string)
    ensures |s| > decimals && IsDigits(s) && Parse(s) == n
  {
    PadKeepsValue(Print(n), decimals + 1);
    PadStart(Print(n), decimals + 1)
  }

  function Whole(n: nat, decimals: nat): string { Padded(n, decimals)[..|Padded(n, decimals)| - decimals] }

  function Tail(n: nat, decimals: nat): string { Padded(n, decimals)[|Padded(n, decimals)| - decimals..] }

  lemma {:induction false} PartsFacts(n: nat, decimals: nat)
    ensures Whole(n, decimals) != "" && IsDigits(Whole(n, decimals))
    ensures |Tail(n, decimals)| == decimals && IsDigits(Tail(n, decimals))
    ensures Parse(Whole(n, decimals)) * Pow(10, decimals) + Parse(Tail(n, decimals)) == n
  {
    assert Padded(n, decimals) == Whole(n, decimals) + Tail(n, decimals);
    ParseConcat(Whole(n, decimals), Tail(n, decimals));
  }

  function FormatMagnitude(n: nat, decimals: nat): string
  {
    if decimals == 0 then Print(n)
    else
      var fraction := StripZeros(Tail(n, decimals));
      if fraction != "" then Whole(n, decimals) + "." + fraction else Whole(n, decimals)
  }

  /** `group`: a comma before every full group of three digits from the right. */
  function Group(digits: string): string
  {
    if |digits| <= 3 then digits
    else Group(digits[..|digits| - 3]) + "," + digits[|digits| - 3..]
  }

  /** The text of `moneyParts` for a non-negative amount of a registered asset. */
  function MoneyText(n: nat, decimals: nat): string
  {
    if decimals == 0 then Group(Print(n))
    else Group(Whole(n, decimals)) + "." + PadEnd(StripZeros(Tail(n, decimals)), 2)
  }

  /** The first padding loop of `moneyParts`. */
  method PadWhole(digits: string, decimals: nat) returns (s: string)
    ensures s == PadStart(digits, decimals + 1)
  {
    s := digits;
    ghost var n := 0;
    assert Zeros(0) + digits == digits;
    while |s| <= decimals
      invariant s == Zeros(n) + digits && (n > 0 ==> |s| <= decimals + 1)
      decreases decimals + 1 - |s|
    {
      assert "0" + (Zeros(n) + digits) == Zeros(n + 1) + digits;
      s := "0" + s;
      n := n + 1;
    }
  }

  /** The second padding loop of `moneyParts`. */
  method PadFraction(stripped: string) returns (frac: string)
    ensures frac == PadEnd(stripped, 2)
  {
    frac := stripped;
    ghost var n := 0;
    assert stripped + Zeros(0) == stripped;
    while |frac| < 2
      invariant frac == stripped + Zeros(n) && (n > 0 ==> |frac| <= 2)
      decreases 2 - |frac|
    {
      OneMoreZero(stripped, n);
      frac := frac + "0";
      n := n + 1;
    }
  }

  /** `moneyParts` on a text of base units; the number of decimals is None for an asset that
      is not registered. */
  method MoneyParts(base: string, decimals: Option<nat>) returns (text: string, raw: bool)
    ensures raw <==> decimals.None? || !IsNumber(base)
    ensures !IsNumber(base) ==> text == base
    ensures decimals.Some? ==> forall n: nat ::
      (base == Print(n) ==> text == MoneyText(n, decimals.value))
      && (base == "-" + Print(n) ==> text == "-" + MoneyText(n, decimals.value))
    ensures IsNumber(base) && decimals.None? ==> EndsWith(text, " base units")
  {
    var s, sign := base, "";
    if "-" <= base {
      s, sign := base[1..], "-";
    }
    if s == "" || !IsDigits(s) {
      PrintsAreNumbers(base);
      return base, true;
    }
    if decimals.None? {
      text := sign + Group(s) + " base units";
      assert text[|text| - |" base units"|..] == " base units";
      return text, true;
    }
    SignedPrint(base, s, sign);
    var parts := DigitsParts(s, decimals.value);
    assert "" + parts == parts;
    return sign + parts, false;
  }

  /** The part of `moneyParts` that places the point. */
  method DigitsParts(digits: string, decimals: nat) returns (text: string)
    requires digits != "" && IsDigits(digits)
    ensures forall n: nat :: digits == Print(n) ==> text == MoneyText(n, decimals)
  {
    if decimals == 0 {
      return Group(digits);
    }
    var s := PadWhole(digits, decimals);
    PadKeepsValue(digits, decimals + 1);
    var whole := s[..|s| - decimals];
    var frac := PadFraction(StripZeros(s[|s| - decimals..]));
    return Group(whole) + "." + frac;
  }

  /** Digits after at most one minus sign. */
  predicate IsNumber(s: string)
  {
    var digits := if "-" <= s then s[1..] else s;
    digits != "" && IsDigits(digits)
  }

  lemma {:induction false} PrintsAreNumbers(base: string)
    ensures forall n: nat :: base == Print(n) || base == "-" + Print(n) ==> IsNumber(base)
  {
    forall n: nat | base == Print(n) || base == "-" + Print(n) ensures IsNumber(base) { PrintedSign(n, base); }
  }

  lemma {:induction false} PrintedSign(n: nat, base: string)
    requires base == Print(n) || base == "-" + Print(n)
    ensures "-" <= base <==> base == "-" + Print(n)
    ensures base == if "-" <= base then "-" + Print(n) else Print(n)
    ensures IsNumber(base)
  {
    assert IsDigit(Print(n)[0]);
    assert ("-" + Print(n))[1..] == Print(n);
  }

  lemma {:induction false} SignedPrint(base: string, s: string, sign: string)
    requires if "-" <= base then sign == "-" && s == base[1..] else sign == "" && s == base
    ensures forall n: nat :: base == Print(n) ==> sign == "" && s == Print(n)
    ensures forall n: nat :: base == "-" + Print(n) ==> sign == "-" && s == Print(n)
  {
    forall n: nat | base == Print(n) || base == "-" + Print(n)
      ensures s == Print(n) && (base == Print(n) ==> sign == "") && (base == "-" + Print(n) ==> sign == "-")
    {
      PrintedSign(n, base);
      assert ("-" + Print(n))[1..] == Print(n);
    }
  }

  // -------------------------------------------------------------------- parser

  function IndexOfDot(s: string): (r: Option<nat>)
    ensures r.Some? ==> r.value < |s| && s[r.value] == '.' && '.' !in s[..r.value]
    ensures r.None? ==> '.' !in s
  {
    if s == [] then None
    else if s[0] == '.' then Some(0)
    else
      var r := IndexOfDot(s[1..]);
      assert s == [s[0]] + s[1..];
      if r.None? then None
      else
        assert s[..r.value + 1] == [s[0]] + s[1..][..r.value];
        Some(r.value + 1)
  }

  function Trim(s: string): string
    decreases |s|
  {
    if s != [] && s[0] == ' ' then Trim(s[1..])
    else if s != [] && s[|s| - 1] == ' ' then Trim(s[..|s| - 1])
    else s
  }

  /** `toBaseUnits`: digits, optionally a point and at most `decimals` digits; the result
      is the decimal spelling of the base units. */
  function ToBaseUnits(human: string, decimals: nat): Option<string>
  {
    var t := Trim(human);
    var dot := IndexOfDot(t);
    var whole := if dot.None? then t else t[..dot.value];
    var frac := if dot.None? then "" else t[dot.value + 1..];
    if whole == "" || !IsDigits(whole) || !IsDigits(frac) || |frac| > decimals then None
    else Some(Print(Scaled(whole, frac, decimals)))
  }

  function Scaled(whole: string, frac: string, decimals: nat): nat
    requires IsDigits(whole) && IsDigits(frac)
  {
    ParseZeros(if decimals > |frac| then decimals - |frac| else 0);
    Parse(whole) * Pow(10, decimals) + if frac == "" then 0 else Parse(PadEnd(frac, decimals))
  }

  // ---------------------------------------------------------------- round trip

  lemma {:induction false} NoTrim(s: string)
    requires s != "" && s[0] != ' ' && s[|s| - 1] != ' '
    ensures Trim(s) == s
  {
  }

  lemma {:induction false} SplitAtDot(whole: string, frac: string)
    requires '.' !in whole
    ensures IndexOfDot(whole + "." + frac) == Some(|whole|)
  {
    var s := whole + "." + frac;
    if whole == "" {
      assert s[0] == '.';
    } else {
      SplitAtDot(whole[1..], frac);
      assert s[1..] == whole[1..] + "." + frac;
    }
  }

  lemma {:induction false} DigitsHaveNoDot(s: string)
    requires IsDigits(s)
    ensures '.' !in s && ',' !in s
  {
  }

  /** Parsing `whole.frac` and parsing `whole`. */
  lemma {:induction false} ParsesPoint(whole: string, frac: string, decimals: nat)
    requires whole != "" && IsDigits(whole) && IsDigits(frac) && frac != ""
    ensures ToBaseUnits(whole + "." + frac, decimals)
      == if |frac| <= decimals then Some(Print(Scaled(whole, frac, decimals))) else None
  {
    var s := whole + "." + frac;
    DigitsHaveNoDot(whole);
    SplitAtDot(whole, frac);
    assert s[0] == whole[0] && s[|s| - 1] == frac[|frac| - 1];
    NoTrim(s);
    assert s[..|whole|] == whole && s[|whole| + 1..] == frac;
  }

  lemma {:induction false} ParsesWhole(whole: string, decimals: nat)
    requires whole != "" && IsDigits(whole)
    ensures ToBaseUnits(whole, decimals) == Some(Print(Parse(whole) * Pow(10, decimals)))
  {
    DigitsHaveNoDot(whole);
    NoTrim(whole);
  }

  /** A shown fraction scales back to the digits it was cut from. */
  lemma {:induction false} ScaledBack(whole: string, tail: string, frac: string)
    requires IsDigits(whole) && IsDigits(tail) && IsDigits(frac) && Shows(frac, tail)
    ensures Scaled(whole, frac, |tail|) == Parse(whole) * Pow(10, |tail|) + Parse(tail)
  {
    if frac == "" {
      ParseZeros(|tail|);
      assert tail == Zeros(|tail|);
    } else if |frac| == |tail| {
      assert frac + Zeros(0) == frac;
    }
  }

  /** The portal's parser reads back what the backend prints, for every number of decimals:
      every amount that is not negative, and only those. */
  lemma {:induction false} FormatRoundTrip(amount: int, decimals: nat)
    ensures ToBaseUnits(FormatBaseUnits(amount, decimals), decimals)
      == if amount >= 0 then Some(Print(amount)) else None
  {
    if amount < 0 { NegativeRefused(amount, decimals); } else { MagnitudeRoundTrip(amount, decimals); }
  }

  lemma {:induction false} MagnitudeRoundTrip(n: nat, decimals: nat)
    ensures ToBaseUnits(FormatMagnitude(n, decimals), decimals) == Some(Print(n))
  {
    if decimals == 0 {
      ParsesWhole(Print(n), 0);
      assert Pow(10, 0) == 1;
    } else {
      var whole, tail := Whole(n, decimals), Tail(n, decimals);
      var fraction := StripZeros(tail);
      PartsFacts(n, decimals);
      StripShows(tail);
      ShowsDigits(fraction, tail);
      ScaledBack(whole, tail, fraction);
      if fraction != "" { ParsesPoint(whole, fraction, decimals); } else { ParsesWhole(whole, decimals); }
    }
  }

  /** Negative amounts are printed but not accepted. */
  lemma {:induction false} NegativeRefused(amount: int, decimals: nat)
    requires amount < 0
    ensures ToBaseUnits(FormatBaseUnits(amount, decimals), decimals) == None
  {
    var body := NegativePrint(amount, decimals);
    SignRefused(body, decimals);
  }

  lemma {:induction false} NegativePrint(amount: int, decimals: nat) returns (body: string)
    requires amount < 0
    ensures FormatBaseUnits(amount, decimals) == "-" + body && EndsWell(body)
  {
    body := FormatMagnitude(-amount, decimals);
    EndsInDigit(-amount, decimals);
  }

  predicate EndsWell(s: string) { s != "" && s[|s| - 1] != ' ' }

  lemma {:induction false} SignRefused(body: string, decimals: nat)
    requires EndsWell(body)
    ensures ToBaseUnits("-" + body, decimals) == None
  {
    var s := "-" + body;
    assert s[0] == '-' && s[|s| - 1] == body[|body| - 1];
    NoTrim(s);
    var dot := IndexOfDot(s);
    var whole := if dot.None? then s else s[..dot.value];
    assert whole == "" || whole[0] == s[0];
  }

  lemma {:induction false} EndsInDigit(n: nat, decimals: nat)
    ensures EndsWell(FormatMagnitude(n, decimals))
  {
    if decimals > 0 {
      PartsFacts(n, decimals);
      StripShows(Tail(n, decimals));
      ShowsDigits(StripZeros(Tail(n, decimals)), Tail(n, decimals));
    }
  }

  function RemoveCommas(s: string): string
  {
    if s == "" then "" else (if s[0] == ',' then "" else [s[0]]) + RemoveCommas(s[1..])
  }

  lemma {:induction false} RemoveCommasConcat(s: string, t: string)
    ensures RemoveCommas(s + t) == RemoveCommas(s) + RemoveCommas(t)
  {
    if s == "" {
      assert s + t == t;
    } else {
      RemoveCommasConcat(s[1..], t);
      var u := s + t;
      assert u[0] == s[0] && u[1..] == s[1..] + t;
      var h := if s[0] == ',' then "" else [s[0]];
      assert RemoveCommas(u) == h + RemoveCommas(u[1..]);
      assert h + (RemoveCommas(s[1..]) + RemoveCommas(t)) == h + RemoveCommas(s[1..]) + RemoveCommas(t);
    }
  }

  lemma {:induction false} RemoveCommasNone(s: string)
    requires ',' !in s
    ensures RemoveCommas(s) == s
  {
    if s != "" {
      RemoveCommasNone(s[1..]);
      assert s == [s[0]] + s[1..];
    }
  }

  /** Grouping only adds commas. */
  lemma {:induction false} UngroupedIsSame(digits: string)
    requires IsDigits(digits)
    ensures RemoveCommas(Group(digits)) == digits
    decreases |digits|
  {
    DigitsHaveNoDot(digits);
    if |digits| <= 3 {
      RemoveCommasNone(digits);
    } else {
      var head, tail := digits[..|digits| - 3], digits[|digits| - 3..];
      UngroupedIsSame(head);
      RemoveCommasConcat(Group(head) + ",", tail);
      RemoveCommasConcat(Group(head), ",");
      RemoveCommasNone(tail);
      assert RemoveCommas(",") == "" by { assert ","[1..] == ""; }
      assert head + "" + tail == digits;
    }
  }

  lemma {:induction false} UngroupedParts(whole: string, frac: string)
    requires IsDigits(whole) && IsDigits(frac)
    ensures RemoveCommas(Group(whole) + "." + frac) == whole + "." + frac
  {
    UngroupedIsSame(whole);
    DigitsHaveNoDot(frac);
    RemoveCommasConcat(Group(whole) + ".", frac);
    RemoveCommasConcat(Group(whole), ".");
    RemoveCommasNone(".");
    RemoveCommasNone(frac);
  }

  /** The console's own text, commas removed, is read back exactly when the asset does not
      have a single decimal: moneyParts always shows at least two. */
  lemma {:induction false} MoneyTextRoundTrip(n: nat, decimals: nat)
    ensures ToBaseUnits(RemoveCommas(MoneyText(n, decimals)), decimals)
      == if decimals == 1 then None else Some(Print(n))
  {
    if decimals == 0 {
      UngroupedIsSame(Print(n));
      ParsesWhole(Print(n), 0);
      assert Pow(10, 0) == 1;
    } else {
      var whole, tail := Whole(n, decimals), Tail(n, decimals);
      var frac := PadEnd(StripZeros(tail), 2);
      PartsFacts(n, decimals);
      ShownFraction(tail);
      UngroupedParts(whole, frac);
      ParsesPoint(whole, frac, decimals);
      if decimals > 1 { ScaledBack(whole, tail, frac); }
    }
  }

  /** At least two of the fraction's digits are shown, and the rest are zeros. */
  lemma {:induction false} ShownFraction(tail: string)
    requires IsDigits(tail)
    ensures var frac := PadEnd(StripZeros(tail), 2);
      IsDigits(frac) && |frac| >= 2 && (|tail| >= 2 ==> Shows(frac, tail)) && (|tail| < 2 ==> |frac| > |tail|)
  {
    var stripped := StripZeros(tail);
    StripShows(tail);
    ShowsDigits(stripped, tail);
    if |stripped| < 2 && |tail| >= 2 { MoreZeros(stripped, 2 - |stripped|, |tail| - 2); }
  }

  lemma {:induction false} MoreZeros(r: string, m: nat, n: nat)
    ensures r + Zeros(m + n) == r + Zeros(m) + Zeros(n)
  {
  }

  // ------------------------------------------------------------------ how it looks

  /** Commas stand exactly where a multiple of three digits follows. */
  lemma {:induction false} GroupPlaces(digits: string, i: nat)
    requires IsDigits(digits) && i < |Group(digits)|
    ensures Group(digits)[i] == ',' <==> (|Group(digits)| - i) % 4 == 0
    decreases |digits|
  {
    if |digits| <= 3 {
      assert IsDigit(digits[i]);
    } else {
      var head, tail := digits[..|digits| - 3], digits[|digits| - 3..];
      var g := Group(head);
      assert Group(digits) == g + "," + tail;
      if i < |g| {
        GroupPlaces(head, i);
        assert (|g| + 4 - i) % 4 == (|g| - i) % 4;
      } else if i > |g| {
        assert IsDigit(tail[i - |g| - 1]);
      }
    }
  }

  /** A number is printed without leading zeros. */
  lemma {:induction false} PrintCanonical(n: nat)
    ensures Print(n)[0] == '0' ==> n == 0
    ensures n > 0 ==> Print(n)[0] != '0'
  {
    if n >= 10 { PrintCanonical(n / 10); }
  }

  /** No zero is left at the end. */
  lemma {:induction false} StripLast(s: string)
    ensures var r := StripZeros(s); r != "" ==> r[|r| - 1] != '0'
  {
    if s != [] && s[|s| - 1] == '0' { StripLast(s[..|s| - 1]); }
  }

  /** The backend's text has no needless zero: none at the end of a fraction, none before a
      number of two or more whole digits. */
  lemma {:induction false} FormatCanonical(n: nat, decimals: nat)
    ensures var s := FormatMagnitude(n, decimals);
      && ('.' in s ==> s[|s| - 1] != '0')
      && (|s| > 1 && s[0] == '0' ==> s[1] == '.')
  {
    PrintCanonical(n);
    if decimals == 0 {
      DigitsHaveNoDot(Print(n));
      if Print(n)[0] == '0' { assert Print(0) == "0"; }
    } else {
      PartsFacts(n, decimals);
      StripLast(Tail(n, decimals));
      DigitsHaveNoDot(Whole(n, decimals));
      WholeCanonical(n, decimals);
    }
  }

  lemma {:induction false} WholeCanonical(n: nat, decimals: nat)
    ensures var w := Whole(n, decimals); w != "" && (|w| > 1 ==> w[0] != '0')
  {
    var p := Padded(n, decimals);
    PrintCanonical(n);
    assert Print(0) == "0";
    if |Print(n)| <= decimals + 1 {
      assert |p| == decimals + 1;
    } else {
      assert p == Print(n);
    }
  }
}
