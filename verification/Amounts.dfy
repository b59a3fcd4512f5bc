/** Parsing and printing amounts of tokens. */
module Amounts {
  import opened Basics

  type Amount = u128

  const DECIMAL_PLACES := 18

  datatype ParseAmountError = Malformed | TooHigh | TooManyDigits

  /** Multiplication by a power of ten. */
  function Shift(n: nat, k: nat): nat {
    if k == 0 then n else 10 * Shift(n, k - 1)
  }

  predicate IsDigit(c: char) {
    '0' <= c <= '9'
  }

  function DigitOf(c: char): nat {
    if IsDigit(c) then c as int - '0' as int else 0
  }

  /** A run of digits, possibly with underscores between them. */
  predicate Plain(s: string) {
    forall i | 0 <= i < |s| :: IsDigit(s[i]) || s[i] == '_'
  }

  function DigitCount(s: string): nat {
    if s == "" then 0 else DigitCount(s[..|s| - 1]) + if IsDigit(s[|s| - 1]) then 1 else 0
  }

  /** The number written by the digits of a run. */
  function Value(s: string): nat {
    if s == "" then 0
    else
      var before, c := s[..|s| - 1], s[|s| - 1];
      if IsDigit(c) then 10 * Value(before) + DigitOf(c) else Value(before)
  }

  /** The Unicode white space characters. */
  predicate IsWhitespace(c: char) {
    var n := c as int;
    || 0x9 <= n <= 0xD || n == 0x20 || n == 0x85 || n == 0xA0 || n == 0x1680 || 0x2000 <= n <= 0x200A
    || n == 0x2028 || n == 0x2029 || n == 0x202F || n == 0x205F || n == 0x3000
  }

  function TrimStart(s: string): string {
    if s != "" && IsWhitespace(s[0]) then TrimStart(s[1..]) else s
  }

  function TrimEnd(s: string): string {
    if s != "" && IsWhitespace(s[|s| - 1]) then TrimEnd(s[..|s| - 1]) else s
  }

  /** The text without surrounding white space and without a leading plus sign. */
  function Body(src: string): string {
    var text := TrimEnd(TrimStart(src));
    if text != "" && text[0] == '+' then text[1..] else text
  }

  /** The grammar: digits, optionally followed by a point and more digits; either may be empty. */
  predicate Denotes(text: string, integer: string, fraction: string) {
    && Plain(integer) && Plain(fraction)
    && ((text == integer && fraction == "") || text == integer + "." + fraction)
  }

  /** The exact amount in attotokens. */
  function Attos(integer: string, fraction: string): nat
    requires DigitCount(fraction) <= DECIMAL_PLACES
  {
    Shift(Value(integer), DECIMAL_PLACES) + Shift(Value(fraction), DECIMAL_PLACES - DigitCount(fraction))
  }

  ghost predicate Means(text: string, v: nat) {
    exists integer, fraction ::
      Denotes(text, integer, fraction) && DigitCount(fraction) <= DECIMAL_PLACES && v == Attos(integer, fraction)
  }

  /** What a text means as an amount, if anything. */
  ghost function Meaning(src: string): Option<Amount> {
    if exists v: nat :: v <= U128_MAX && Means(Body(src), v)
    then
      var v: nat :| v <= U128_MAX && Means(Body(src), v);
      Some(v)
    else None
  }

  lemma DenotesOnce(text: string, i: string, f: string, j: string, g: string)
    requires Denotes(text, i, f) && Denotes(text, j, g)
    ensures i == j && f == g
  {
    if |i| < |text| {
      assert text[|i|] == '.';
    }
    if |j| < |text| {
      assert text[|j|] == '.';
    }
    assert i == text[..|i|] && j == text[..|i|];
    if |i| < |text| {
      assert f == text[|i| + 1..] && g == text[|i| + 1..];
    }
  }

  lemma MeansOnce(text: string, v: nat, w: nat)
    requires Means(text, v) && Means(text, w)
    ensures v == w
  {
    var i, f :| Denotes(text, i, f) && DigitCount(f) <= DECIMAL_PLACES && v == Attos(i, f);
    var j, g :| Denotes(text, j, g) && DigitCount(g) <= DECIMAL_PLACES && w == Attos(j, g);
    DenotesOnce(text, i, f, j, g);
  }

  lemma {:induction false} ShiftLaws(n: nat, m: nat, j: nat, k: nat)
    ensures Shift(n, j + k) == Shift(Shift(n, j), k)
    ensures Shift(n + m, k) == Shift(n, k) + Shift(m, k)
    ensures Shift(n, k) >= n
  {
    if k > 0 {
      ShiftLaws(n, m, j, k - 1);
      assert j + k - 1 == j + (k - 1);
    }
  }

  /** Runs of digits written one after the other. */
  lemma {:induction false} ValueOfJoined(s: string, t: string)
    ensures Value(s + t) == Shift(Value(s), DigitCount(t)) + Value(t)
    ensures DigitCount(s + t) == DigitCount(s) + DigitCount(t)
  {
    if t == "" {
      assert s + t == s;
    } else {
      ValueOfJoined(s, t[..|t| - 1]);
      assert (s + t)[..|s + t| - 1] == s + t[..|t| - 1];
    }
  }

  lemma ShiftedDigits(integer: string, fraction: string, places: nat)
    requires DigitCount(fraction) <= places
    ensures Shift(Value(integer), places) + Shift(Value(fraction), places - DigitCount(fraction))
            == Shift(Value(integer + fraction), places - DigitCount(fraction))
  {
    var k := DigitCount(fraction);
    ValueOfJoined(integer, fraction);
    ShiftLaws(Shift(Value(integer), k), Value(fraction), 0, places - k);
    ShiftLaws(Value(integer), 0, k, places - k);
  }

  /** The amount is the number written by all digits, shifted by the decimals that are missing. */
  lemma AttosAreShiftedDigits(integer: string, fraction: string)
    requires DigitCount(fraction) <= DECIMAL_PLACES
    ensures Attos(integer, fraction) == Shift(Value(integer + fraction), DECIMAL_PLACES - DigitCount(fraction))
  {
    ShiftedDigits(integer, fraction, DECIMAL_PLACES);
  }

  /** The digits read so far are worth no more than the whole amount. */
  lemma AttosBoundTheDigits(integer: string, fraction: string, read: string, unread: string)
    requires DigitCount(fraction) <= DECIMAL_PLACES && integer + fraction == read + unread
    ensures Attos(integer, fraction) >= Value(read)
  {
    AttosAreShiftedDigits(integer, fraction);
    ShiftLaws(Value(integer + fraction), 0, 0, DECIMAL_PLACES - DigitCount(fraction));
    ValueOfJoined(read, unread);
    ShiftLaws(Value(read), 0, 0, DigitCount(unread));
  }

  /**
   * What the parser knows after reading a prefix: the position of the point, the decimals that may
   * still follow, and the number written so far.
   */
  ghost predicate Scanned(text: string, n: nat, point: Option<nat>, decimals: Option<nat>, result: nat) {
    n <= |text| &&
    match point
    case None => Plain(text[..n]) && decimals.None? && result == Value(text[..n])
    case Some(p) =>
      && p < n && text[p] == '.' && Plain(text[..p]) && Plain(text[p + 1..n])
      && DigitCount(text[p + 1..n]) <= DECIMAL_PLACES
      && decimals == Some(DECIMAL_PLACES - DigitCount(text[p + 1..n]))
      && result == Value(text[..p] + text[p + 1..n])
  }

  lemma OneMore(s: string, c: char)
    ensures Plain(s + [c]) <==> Plain(s) && (IsDigit(c) || c == '_')
    ensures DigitCount(s + [c]) == DigitCount(s) + if IsDigit(c) then 1 else 0
    ensures Value(s + [c]) == if IsDigit(c) then 10 * Value(s) + DigitOf(c) else Value(s)
  {
    var t := s + [c];
    assert t[..|t| - 1] == s && t[|s|] == c;
    assert forall i | 0 <= i < |s| :: t[i] == s[i];
  }

  /** Reading one more character, before or after the point. */
  lemma ScanOne(text: string, n: nat, p: nat)
    requires n < |text|
    ensures text[..n + 1] == text[..n] + [text[n]]
    ensures p < n ==> text[p + 1..n + 1] == text[p + 1..n] + [text[n]]
    ensures p < n ==> text[..p] + text[p + 1..n + 1] == text[..p] + text[p + 1..n] + [text[n]]
  {}

  lemma ScanDigit(text: string, n: nat, point: Option<nat>, decimals: Option<nat>, result: nat)
    requires Scanned(text, n, point, decimals, result) && n < |text|
    requires text[n] == '_' || (IsDigit(text[n]) && decimals != Some(0))
    ensures text[n] == '_' ==> Scanned(text, n + 1, point, decimals, result)
    ensures IsDigit(text[n]) ==>
              Scanned(text, n + 1, point, if decimals.Some? then Some(decimals.value - 1) else None,
                      10 * result + DigitOf(text[n]))
  {
    match point
    case None =>
      ScanOne(text, n, n);
      OneMore(text[..n], text[n]);
    case Some(p) =>
      ScanOne(text, n, p);
      OneMore(text[p + 1..n], text[n]);
      OneMore(text[..p] + text[p + 1..n], text[n]);
  }

  lemma PrefixBeforePoint(text: string, n: nat, i: string, f: string)
    requires n <= |text| && Plain(text[..n]) && Denotes(text, i, f)
    ensures |i| >= n && i + f == text[..n] + (i + f)[n..]
  {
    assert |i| < |text| ==> text[|i|] == '.';
    assert text[..n] == i[..n];
  }

  lemma PrefixWithPoint(text: string, n: nat, p: nat, i: string, f: string)
    requires p < n <= |text| && text[p] == '.' && Plain(text[..p]) && Denotes(text, i, f)
    ensures |i| == p && f == text[p + 1..] && i + f == text[..p] + text[p + 1..n] + text[n..]
  {
    PrefixBeforePoint(text, p, i, f);
    assert i == text[..p] && f == text[p + 1..];
    assert f == text[p + 1..n] + text[n..];
    assert text[..p] + (text[p + 1..n] + text[n..]) == text[..p] + text[p + 1..n] + text[n..];
  }

  /** Once the number is too high, or the fraction too long, nothing that follows can make up for it. */
  lemma NoWayBack(text: string, n: nat, point: Option<nat>, decimals: Option<nat>, result: nat)
    requires Scanned(text, n, point, decimals, result) && n < |text| && IsDigit(text[n])
    requires decimals == Some(0) || 10 * result + DigitOf(text[n]) > U128_MAX
    ensures forall v: nat | v <= U128_MAX :: !Means(text, v)
  {
    forall i, f | Denotes(text, i, f) && DigitCount(f) <= DECIMAL_PLACES ensures Attos(i, f) > U128_MAX {
      if decimals == Some(0) {
        PrefixWithPoint(text, n, point.value, i, f);
        TooManyDecimals(text, n, point.value);
      } else {
        ScanDigit(text, n, point, decimals, result);
        ReadSoFar(text, n + 1, point, if decimals.Some? then Some(decimals.value - 1) else None,
            10 * result + DigitOf(text[n]), i, f);
      }
    }
  }

  lemma TooManyDecimals(text: string, n: nat, p: nat)
    requires p < n < |text| && IsDigit(text[n]) && DigitCount(text[p + 1..n]) == DECIMAL_PLACES
    ensures DigitCount(text[p + 1..]) > DECIMAL_PLACES
  {
    var read, rest := text[p + 1..n], text[n + 1..];
    assert text[p + 1..] == read + [text[n]] + rest;
    ValueOfJoined(read + [text[n]], rest);
    ValueOfJoined(read, [text[n]]);
  }

  lemma ReadSoFar(text: string, n: nat, point: Option<nat>, decimals: Option<nat>, result: nat, i: string, f: string)
    requires Scanned(text, n, point, decimals, result) && Denotes(text, i, f) && DigitCount(f) <= DECIMAL_PLACES
    ensures Attos(i, f) >= result
  {
    match point
    case None =>
      PrefixBeforePoint(text, n, i, f);
      AttosBoundTheDigits(i, f, text[..n], (i + f)[n..]);
    case Some(p) =>
      PrefixWithPoint(text, n, p, i, f);
      AttosBoundTheDigits(i, f, text[..p] + text[p + 1..n], text[n..]);
  }

  /** A character that fits nowhere, or a second point. */
  lemma NotDenoted(text: string, n: nat, point: Option<nat>, decimals: Option<nat>, result: nat)
    requires Scanned(text, n, point, decimals, result) && n < |text|
    requires text[n] != '_' && !IsDigit(text[n]) && (text[n] == '.' ==> point.Some?)
    ensures forall i, f :: !Denotes(text, i, f)
  {
    forall i, f ensures !Denotes(text, i, f) {
      if Denotes(text, i, f) {
        match point
        case None => PrefixBeforePoint(text, n, i, f);
        case Some(p) => PrefixWithPoint(text, n, p, i, f);
      }
    }
  }

  lemma AllScanned(text: string, point: Option<nat>, decimals: Option<nat>, result: nat)
    requires Scanned(text, |text|, point, decimals, result)
    ensures Means(text, Shift(result, if decimals.Some? then decimals.value else DECIMAL_PLACES))
  {
    assert text[..|text|] == text;
    match point
    case None =>
      assert Denotes(text, text, "");
      AttosAreShiftedDigits(text, "");
      assert text + "" == text;
    case Some(p) =>
      assert text == text[..p] + "." + text[p + 1..];
      assert text[p + 1..|text|] == text[p + 1..];
      assert Denotes(text, text[..p], text[p + 1..]);
      AttosAreShiftedDigits(text[..p], text[p + 1..]);
  }

  /** What a reported error means about the text. */
  ghost predicate Justifies(text: string, error: ParseAmountError) {
    match error
    case Malformed => forall i, f :: !Denotes(text, i, f)
    case TooManyDigits => forall i, f | Denotes(text, i, f) :: DigitCount(f) > DECIMAL_PLACES
    case TooHigh => forall v: nat | Means(text, v) :: v > U128_MAX
  }

  /** Parses an amount: exactly the texts with a meaning are accepted, with that meaning. */
  method Parse(src: string) returns (r: Result<Amount, ParseAmountError>)
    ensures Meaning(src) == if r.Ok? then Some(r.value) else None
    ensures r.Err? ==> Justifies(Body(src), r.error)
  {
    var result: Amount := 0;
    var decimals: Option<nat> := None;
    var text := Body(src);
    ghost var point: Option<nat> := None;
    for n := 0 to |text|
      invariant Scanned(text, n, point, decimals, result)
    {
      var c := text[n];
      if c == '_' {
        ScanDigit(text, n, point, decimals, result);
      } else if c == '.' {
        if decimals.Some? {
          NotDenoted(text, n, point, decimals, result);
          return Err(Malformed);
        }
        decimals, point := Some(DECIMAL_PLACES), Some(n);
        ScanPoint(text, n, result);
      } else {
        if !IsDigit(c) {
          NotDenoted(text, n, point, decimals, result);
          return Err(Malformed);
        }
        if decimals == Some(0) {
          NoWayBack(text, n, point, decimals, result);
          NoRoom(text, n, point, decimals, result);
          return Err(TooManyDigits);
        }
        if 10 * result + DigitOf(c) > U128_MAX {
          NoWayBack(text, n, point, decimals, result);
          return Err(TooHigh);
        }
        ScanDigit(text, n, point, decimals, result);
        if decimals.Some? {
          decimals := Some(decimals.value - 1);
        }
        result := 10 * result + DigitOf(c);
      }
    }
    AllScanned(text, point, decimals, result);
    var attos := Shift(result, if decimals.Some? then decimals.value else DECIMAL_PLACES);
    forall v: nat | Means(text, v) ensures v == attos {
      MeansOnce(text, v, attos);
    }
    if attos > U128_MAX {
      return Err(TooHigh);
    }
    return Ok(attos);
  }

  lemma ScanPoint(text: string, n: nat, result: nat)
    requires Scanned(text, n, None, None, result) && n < |text| && text[n] == '.'
    ensures Scanned(text, n + 1, Some(n), Some(DECIMAL_PLACES), result)
  {
    assert text[n + 1..n + 1] == "";
    assert text[..n] + "" == text[..n];
  }

  lemma NoRoom(text: string, n: nat, point: Option<nat>, decimals: Option<nat>, result: nat)
    requires Scanned(text, n, point, decimals, result) && n < |text| && IsDigit(text[n]) && decimals == Some(0)
    ensures forall i, f | Denotes(text, i, f) :: DigitCount(f) > DECIMAL_PLACES
  {
    forall i, f | Denotes(text, i, f) ensures DigitCount(f) > DECIMAL_PLACES {
      PrefixWithPoint(text, n, point.value, i, f);
      TooManyDecimals(text, n, point.value);
    }
  }

  function DigitChar(d: nat): char
    requires d < 10
  {
    ('0' as int + d) as char
  }

  function Decimal(n: nat): string {
    if n < 10 then [DigitChar(n)] else Decimal(n / 10) + [DigitChar(n % 10)]
  }

  /** The number with leading zeros up to a digit before the point. */
  function Padded(n: nat): (s: string)
    ensures |s| > DECIMAL_PLACES
  {
    var digits := Decimal(n);
    seq(Max(0, DECIMAL_PLACES + 1 - |digits|), i => '0') + digits
  }

  function TrimZeros(s: string): string {
    if s != "" && s[|s| - 1] == '0' then TrimZeros(s[..|s| - 1]) else s
  }

  function Display(n: Amount): string {
    var decimals := Padded(n);
    var k := |decimals| - DECIMAL_PLACES;
    decimals[..k] + "." + TrimZeros(decimals[k..])
  }

  predicate AllDigits(s: string) {
    forall i | 0 <= i < |s| :: IsDigit(s[i])
  }

  lemma {:induction false} DigitsAreCounted(s: string)
    requires AllDigits(s)
    ensures DigitCount(s) == |s|
  {
    if s != "" {
      DigitsAreCounted(s[..|s| - 1]);
    }
  }

  lemma {:induction false} DecimalIsTheNumber(n: nat)
    ensures AllDigits(Decimal(n)) && Value(Decimal(n)) == n
  {
    var s := Decimal(n);
    if n < 10 {
      assert s[..0] == "" && s[0] == DigitChar(n);
    } else {
      DecimalIsTheNumber(n / 10);
      assert s[..|s| - 1] == Decimal(n / 10) && s[|s| - 1] == DigitChar(n % 10);
    }
  }

  lemma {:induction false} ZerosAreNothing(s: string)
    requires forall i | 0 <= i < |s| :: s[i] == '0'
    ensures Value(s) == 0
  {
    if s != "" {
      ZerosAreNothing(s[..|s| - 1]);
    }
  }

  lemma {:induction false} ShiftNothing(k: nat)
    ensures Shift(0, k) == 0
  {
    if k > 0 {
      ShiftNothing(k - 1);
    }
  }

  lemma PaddedIsTheNumber(n: nat)
    ensures AllDigits(Padded(n)) && Value(Padded(n)) == n
  {
    var digits := Decimal(n);
    var zeros := seq(Max(0, DECIMAL_PLACES + 1 - |digits|), i => '0');
    DecimalIsTheNumber(n);
    ZerosAreNothing(zeros);
    ValueOfJoined(zeros, digits);
    ShiftNothing(DigitCount(digits));
  }

  /** Trailing zeros of the fraction only shift it. */
  lemma {:induction false} TrimmedZeros(s: string)
    requires AllDigits(s)
    ensures AllDigits(TrimZeros(s)) && |TrimZeros(s)| <= |s|
    ensures Value(s) == Shift(Value(TrimZeros(s)), |s| - |TrimZeros(s)|)
  {
    if s != "" && s[|s| - 1] == '0' {
      TrimmedZeros(s[..|s| - 1]);
    }
  }

  lemma DisplayIsExact(integer: string, fraction: string)
    requires AllDigits(integer) && AllDigits(fraction) && |fraction| == DECIMAL_PLACES
    ensures Denotes(integer + "." + TrimZeros(fraction), integer, TrimZeros(fraction))
    ensures DigitCount(TrimZeros(fraction)) <= DECIMAL_PLACES
    ensures Attos(integer, TrimZeros(fraction)) == Value(integer + fraction)
  {
    TrimmedZeros(fraction);
    TrimmedIsExact(integer, fraction, DECIMAL_PLACES);
  }

  lemma TrimmedIsExact(integer: string, fraction: string, places: nat)
    requires AllDigits(fraction) && |fraction| == places
    ensures DigitCount(TrimZeros(fraction)) <= places
    ensures Shift(Value(integer), places) + Shift(Value(TrimZeros(fraction)), places - DigitCount(TrimZeros(fraction)))
            == Value(integer + fraction)
  {
    TrimmedZeros(fraction);
    DigitsAreCounted(fraction);
    DigitsAreCounted(TrimZeros(fraction));
    ValueOfJoined(integer, fraction);
  }

  lemma NothingToTrim(text: string)
    requires text != "" && IsDigit(text[0]) && (IsDigit(text[|text| - 1]) || text[|text| - 1] == '.')
    ensures Body(text) == text
  {}

  lemma SplitDigits(s: string, k: nat)
    requires AllDigits(s) && k <= |s|
    ensures AllDigits(s[..k]) && AllDigits(s[k..]) && s == s[..k] + s[k..]
  {}

  /** Printing an amount and parsing the text gives the amount back. */
  lemma RoundTrip(n: Amount)
    ensures Meaning(Display(n)) == Some(n)
  {
    PaddedIsTheNumber(n);
    var decimals, text := Padded(n), Display(n);
    var k := |decimals| - DECIMAL_PLACES;
    var integer, fraction := decimals[..k], decimals[k..];
    SplitDigits(decimals, k);
    DisplayIsExact(integer, fraction);
    TrimmedZeros(fraction);
    NothingToTrim(text);
    assert Means(text, n);
    forall v: nat | Means(text, v) ensures v == n {
      MeansOnce(text, v, n);
    }
  }

  // ----- What a text is worth -----

  const TOKEN: nat := 1_000_000_000_000_000_000

  lemma {:induction false} ShiftTimes(n: nat, k: nat)
    ensures Shift(n, k) == n * Shift(1, k)
  {
    if k > 0 {
      ShiftTimes(n, k - 1);
      assert n * (10 * Shift(1, k - 1)) == 10 * (n * Shift(1, k - 1));
    }
  }

  lemma MillionTimes(n: nat)
    ensures Shift(n, 6) == 1_000_000 * n
  {
    assert Shift(n, 3) == 10 * Shift(n, 2) == 100 * Shift(n, 1) == 1000 * n;
    assert Shift(n, 6) == 10 * Shift(n, 5) == 100 * Shift(n, 4) == 1000 * Shift(n, 3);
  }

  lemma OneTokenIsMany(n: nat)
    ensures Shift(n, DECIMAL_PLACES) == n * TOKEN
  {
    MillionTimes(n);
    MillionTimes(Shift(n, 6));
    MillionTimes(Shift(n, 12));
    ShiftLaws(n, 0, 6, 6);
    ShiftLaws(n, 0, 12, 6);
  }

  /** A text of digits alone is a number of whole tokens. */
  lemma WholeTokens(s: string)
    requires s != "" && AllDigits(s)
    ensures Meaning(s) == if Value(s) * TOKEN <= U128_MAX then Some(Value(s) * TOKEN) else None
  {
    NothingToTrim(s);
    OneTokenIsMany(Value(s));
    ShiftNothing(DECIMAL_PLACES);
    assert Denotes(s, s, "") && DigitCount("") == 0 && Value("") == 0;
    assert Attos(s, "") == Value(s) * TOKEN;
    assert Means(s, Value(s) * TOKEN);
    forall v: nat | Means(s, v) ensures v == Value(s) * TOKEN {
      MeansOnce(s, v, Value(s) * TOKEN);
    }
  }

  lemma {:induction false} TrimStartBefore(s: string, c: char)
    requires IsWhitespace(c)
    ensures TrimEnd(TrimStart(s + [c])) == TrimEnd(TrimStart(s))
  {
    if s == "" {
      assert ("" + [c])[1..] == "";
    } else if IsWhitespace(s[0]) {
      TrimStartBefore(s[1..], c);
      assert (s + [c])[1..] == s[1..] + [c];
    } else {
      assert (s + [c])[..|s|] == s;
    }
  }

  lemma SameBodySameMeaning(s: string, t: string)
    requires Body(s) == Body(t)
    ensures Meaning(s) == Meaning(t)
  {
    if Meaning(s).Some? {
      MeansOnce(Body(s), Meaning(s).value, Meaning(t).value);
    }
  }

  /** Surrounding white space does not matter. */
  lemma SpacesAreIgnored(s: string, c: char)
    requires IsWhitespace(c)
    ensures Meaning([c] + s) == Meaning(s) && Meaning(s + [c]) == Meaning(s)
  {
    assert ([c] + s)[1..] == s;
    assert Body([c] + s) == Body(s);
    SameBodySameMeaning([c] + s, s);
    TrimStartBefore(s, c);
    SameBodySameMeaning(s + [c], s);
  }

  lemma {:induction false} TrimEndAfter(c: char, s: string)
    requires !IsWhitespace(c)
    ensures TrimEnd([c] + s) == [c] + TrimEnd(s)
  {
    if s == "" {
      assert [c] + s == [c];
    } else if IsWhitespace(s[|s| - 1]) {
      TrimEndAfter(c, s[..|s| - 1]);
      assert ([c] + s)[..|s|] == [c] + s[..|s| - 1];
    }
  }

  lemma SignFirst(c: char, s: string)
    requires c == '+' || c == '-'
    ensures Body([c] + s) == if c == '+' then TrimEnd(s) else [c] + TrimEnd(s)
  {
    TrimEndAfter(c, s);
    assert ([c] + TrimEnd(s))[1..] == TrimEnd(s);
  }

  lemma NoSignInside(c: char, s: string)
    requires c == '+' || c == '-'
    ensures forall i, f :: !Denotes([c] + s, i, f)
  {
    forall i, f ensures !Denotes([c] + s, i, f) {
      assert ([c] + s)[0] == c;
    }
  }

  /** One leading plus sign does not matter; a second one, or a minus sign, is refused. */
  lemma LeadingSigns(s: string)
    ensures s != "" && !IsWhitespace(s[0]) && s[0] != '+' ==> Meaning("+" + s) == Meaning(s)
    ensures Meaning("++" + s).None? && Meaning("-" + s).None?
  {
    SignFirst('+', s);
    SignFirst('-', s);
    SignFirst('+', "+" + s);
    assert "+" + ("+" + s) == "++" + s;
    TrimEndAfter('+', s);
    NoSignInside('+', TrimEnd(s));
    NoSignInside('-', TrimEnd(s));
    if s != "" && !IsWhitespace(s[0]) && s[0] != '+' {
      TrimEndAfter(s[0], s[1..]);
      assert [s[0]] + s[1..] == s;
      SameBodySameMeaning("+" + s, s);
    }
  }

  lemma PlainIsItsBody(s: string)
    requires Plain(s)
    ensures Body(s) == s
  {}

  /** Underscores between the digits do not matter. */
  lemma UnderscoresAreIgnored(s: string, t: string)
    requires Plain(s) && Plain(t)
    ensures Meaning(s + "_" + t) == Meaning(s + t)
  {
    var a, b := s + "_" + t, s + t;
    PlainIsItsBody(a);
    PlainIsItsBody(b);
    ValueOfJoined(s + "_", t);
    ValueOfJoined(s, t);
    OneMore(s, '_');
    assert Denotes(a, a, "") && Denotes(b, b, "");
    assert Attos(a, "") == Attos(b, "");
    assert Means(a, Attos(a, "")) && Means(b, Attos(b, ""));
    forall v: nat ensures (Means(a, v) <==> v == Attos(a, "")) && (Means(b, v) <==> v == Attos(b, "")) {
      if Means(a, v) {
        MeansOnce(a, v, Attos(a, ""));
      }
      if Means(b, v) {
        MeansOnce(b, v, Attos(b, ""));
      }
    }
  }

  lemma AttosOfTwoAndAHalf()
    ensures DigitCount("5") == 1 && Attos("2", "5") == 2_500_000_000_000_000_000
  {
    assert "2"[..0] == "" && "5"[..0] == "";
    assert Value("2") == 2 && Value("5") == 5;
    OneTokenIsMany(2);
    OneTokenIsMany(5);
    assert Shift(5, 18) == 10 * Shift(5, 17);
  }

  /** Two and a half tokens. */
  lemma TwoAndAHalf()
    ensures Meaning("2.5") == Some(2_500_000_000_000_000_000)
  {
    NothingToTrim("2.5");
    AttosOfTwoAndAHalf();
    assert "2.5" == "2" + "." + "5" && Denotes("2.5", "2", "5");
    assert Means("2.5", 2_500_000_000_000_000_000);
    forall v: nat | Means("2.5", v) ensures v == 2_500_000_000_000_000_000 {
      MeansOnce("2.5", v, 2_500_000_000_000_000_000);
    }
  }

  /** White space is what Unicode lists as such. */
  lemma WhiteSpaceExactly(c: char)
    ensures IsWhitespace(c) <==>
            c as int in {0x9, 0xA, 0xB, 0xC, 0xD, 0x20, 0x85, 0xA0, 0x1680, 0x2000, 0x2001, 0x2002, 0x2003, 0x2004,
                         0x2005, 0x2006, 0x2007, 0x2008, 0x2009, 0x200A, 0x2028, 0x2029, 0x202F, 0x205F, 0x3000}
  {}

  lemma {:induction false} NoLeadingZero(n: nat)
    requires n > 0
    ensures Decimal(n) != "" && Decimal(n)[0] != '0'
  {
    if n >= 10 {
      NoLeadingZero(n / 10);
      assert Decimal(n)[0] == Decimal(n / 10)[0];
    }
  }

  lemma {:induction false} NoTrailingZero(s: string)
    ensures TrimZeros(s) <= s
    ensures TrimZeros(s) != "" ==> TrimZeros(s)[|TrimZeros(s)| - 1] != '0'
  {
    if s != "" && s[|s| - 1] == '0' {
      NoTrailingZero(s[..|s| - 1]);
    }
  }

  /** An amount is displayed with at least one digit before the point and no superfluous zeros. */
  lemma DisplayIsCanonical(n: Amount) returns (integer: string, fraction: string)
    ensures Display(n) == integer + "." + fraction
    ensures AllDigits(integer) && AllDigits(fraction) && integer != "" && |fraction| <= DECIMAL_PLACES
    ensures |integer| > 1 ==> integer[0] != '0'
    ensures fraction != "" ==> fraction[|fraction| - 1] != '0'
  {
    PaddedIsTheNumber(n);
    var decimals := Padded(n);
    var k := |decimals| - DECIMAL_PLACES;
    SplitDigits(decimals, k);
    integer, fraction := decimals[..k], TrimZeros(decimals[k..]);
    NoTrailingZero(decimals[k..]);
    TrimmedZeros(decimals[k..]);
    if k > 1 {
      assert decimals == Decimal(n);
      NoLeadingZero(n);
    }
  }
}
