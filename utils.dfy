/**
 * The helpers of src/utils.ts: the English list formatter, the numeric-cell
 * test and the per-row cleaning done while a CSV file is read (the file
 * streaming itself is not part of this model: rows arrive as key/value pairs).
 */
module Utils {
  import opened Nullable
  import opened Text
  import opened Assoc

  // ---------------------------------------------------------------------------
  // comma_formatted

  /** `comma_formatted`: an English list with a final "and" and no serial comma. */
  function CommaFormatted(items: seq<string>): (r: string)
    ensures |items| == 0 ==> r == ""
    ensures |items| == 1 ==> r == items[0]
  {
    if |items| == 0 then ""
    else if |items| == 1 then items[0]
    else Join(items[..|items| - 1], ", ") + " and " + items[|items| - 1]
  }

  /** An independent, front-to-back definition of the same English list. */
  function EnglishList(items: seq<string>): string {
    if |items| == 0 then ""
    else if |items| == 1 then items[0]
    else if |items| == 2 then items[0] + " and " + items[1]
    else items[0] + ", " + EnglishList(items[1..])
  }

  /** `comma_formatted` agrees with the front-to-back English list on every input. */
  lemma {:induction false} CommaFormattedIsEnglishList(items: seq<string>)
    ensures CommaFormatted(items) == EnglishList(items)
    decreases |items|
  {
    var n := |items|;
    if n == 2 {
      assert items[..1] == [items[0]];
    } else if n > 2 {
      var rest := items[1..];
      var init := items[..n - 1];
      CommaFormattedIsEnglishList(rest);
      var middle := Join(rest[..n - 2], ", ");
      assert CommaFormatted(rest) == middle + " and " + items[n - 1];
      assert init[1..] == items[1..][..n - 2];
      assert Join(init, ", ") == items[0] + ", " + middle;
      assert EnglishList(items) == items[0] + ", " + (middle + " and " + items[n - 1]);
    }
  }

  /** Three items: "A, B and C"; two items: "A and B". */
  lemma CommaFormattedShapes(a: string, b: string, c: string)
    ensures CommaFormatted([a, b]) == a + " and " + b
    ensures CommaFormatted([a, b, c]) == a + ", " + b + " and " + c
  {
    assert [a, b][..1] == [a];
    assert [a, b, c][..2] == [a, b];
    assert Join([a, b], ", ") == a + ", " + Join([b], ", ");
  }

  // ---------------------------------------------------------------------------
  // isnumber: the regular expression /^-?\d+\.?\d*$/

  predicate IsDigit(ch: char) {
    '0' <= ch <= '9'
  }

  predicate AllDigits(s: string) {
    forall i :: 0 <= i < |s| ==> IsDigit(s[i])
  }

  /** Length of the run of digits at the start of `s`. */
  function DigitRun(s: string): (k: nat)
    ensures k <= |s| && AllDigits(s[..k])
    ensures k < |s| ==> !IsDigit(s[k])
  {
    if |s| > 0 && IsDigit(s[0]) then 1 + DigitRun(s[1..]) else 0
  }

  /** The text after an optional leading minus sign. */
  function Unsigned(s: string): string {
    if |s| > 0 && s[0] == '-' then s[1..] else s
  }

  /**
   * `isnumber`: an optional "-", one or more digits, an optional ".", then
   * any number of digits, and nothing else.
   */
  predicate IsNumber(s: string) {
    var body := Unsigned(s);
    var k := DigitRun(body);
    k > 0 && (k == |body| || (body[k] == '.' && AllDigits(body[k + 1..])))
  }

  /** The grammar of the regular expression, as four parts. */
  predicate NumberParts(sign: string, whole: string, dot: string, frac: string) {
    (sign == "" || sign == "-") && |whole| > 0 && AllDigits(whole)
    && (dot == "" || dot == ".") && AllDigits(frac)
  }

  lemma DigitRunOfDigits(d: string, rest: string)
    requires AllDigits(d)
    requires |rest| > 0 ==> !IsDigit(rest[0])
    ensures DigitRun(d + rest) == |d|
    decreases |d|
  {
    if |d| > 0 {
      assert (d + rest)[1..] == d[1..] + rest;
      DigitRunOfDigits(d[1..], rest);
    } else {
      assert d + rest == rest;
    }
  }

  /** Every string built by the grammar passes `isnumber`. */
  lemma {:induction false} NumberPartsAccepted(sign: string, whole: string, dot: string, frac: string)
    requires NumberParts(sign, whole, dot, frac)
    ensures IsNumber(sign + whole + dot + frac)
  {
    var s := sign + whole + dot + frac;
    var body := Unsigned(s);
    assert body == whole + dot + frac by {
      if sign == "-" { assert s[1..] == whole + dot + frac; }
      else { assert s == whole + dot + frac; }
    }
    if dot == "" {
      assert body == (whole + frac) + "";
      assert AllDigits(whole + frac);
      DigitRunOfDigits(whole + frac, "");
    } else {
      assert body == whole + ("." + frac);
      DigitRunOfDigits(whole, "." + frac);
      assert body[|whole| + 1..] == frac;
    }
  }

  /** The optional minus sign in front of the unsigned text. */
  lemma SignOf(s: string) returns (sign: string)
    ensures (sign == "" || sign == "-") && s == sign + Unsigned(s)
  {
    if |s| > 0 && s[0] == '-' {
      sign := "-";
      assert s == [s[0]] + s[1..];
    } else {
      sign := "";
    }
  }

  /** The unsigned text of a number: digits, then optionally "." and more digits. */
  lemma BodyParts(body: string) returns (whole: string, dot: string, frac: string)
    requires var k := DigitRun(body);
      k > 0 && (k == |body| || (body[k] == '.' && AllDigits(body[k + 1..])))
    ensures |whole| > 0 && AllDigits(whole) && (dot == "" || dot == ".") && AllDigits(frac)
    ensures body == whole + dot + frac
  {
    var k := DigitRun(body);
    whole := body[..k];
    if k == |body| {
      dot, frac := "", "";
      assert body == whole;
    } else {
      dot, frac := ".", body[k + 1..];
      assert body == whole + dot + frac;
    }
  }

  /** Every string passing `isnumber` is built by the grammar. */
  lemma NumberPartsOf(s: string) returns (sign: string, whole: string, dot: string, frac: string)
    requires IsNumber(s)
    ensures NumberParts(sign, whole, dot, frac) && s == sign + whole + dot + frac
  {
    sign := SignOf(s);
    whole, dot, frac := BodyParts(Unsigned(s));
  }

  /** Strings the pattern accepts: "1." (a dot with no fraction), "-12.50" and "7". */
  lemma IsNumberAccepts()
    ensures IsNumber("1.") && IsNumber("-12.50") && IsNumber("7")
  {
    assert DigitRun("1.") == 1;
    assert Unsigned("-12.50") == "12.50";
    assert DigitRun("12.50") == 2;
    assert "12.50"[3..] == "50";
  }

  /** Strings the pattern rejects: "", "+1", ".5", "1.2.3" and "-". */
  lemma IsNumberRejects()
    ensures !IsNumber("") && !IsNumber("+1") && !IsNumber(".5") && !IsNumber("1.2.3") && !IsNumber("-")
  {
    assert DigitRun("+1") == 0;
    assert DigitRun(".5") == 0;
    assert DigitRun("1.2.3") == 1;
    assert "1.2.3"[2..] == "2.3";
    assert !AllDigits("2.3") by { assert !IsDigit("2.3"[1]); }
    assert Unsigned("-") == "";
  }

  // ---------------------------------------------------------------------------
  // parseInt

  function DigitsValue(d: string): nat
    requires AllDigits(d)
  {
    if |d| == 0 then 0
    else DigitsValue(d[..|d| - 1]) * 10 + (d[|d| - 1] as int - '0' as int)
  }

  /** The value of the run of digits at the start of `b`; `None` when there is none. */
  function LeadingDigits(b: string): Option<nat> {
    var k := DigitRun(b);
    if k == 0 then None else Some(DigitsValue(b[..k]))
  }

  predicate IsHexDigit(ch: char) {
    IsDigit(ch) || 'a' <= ch <= 'f' || 'A' <= ch <= 'F'
  }

  function HexDigitValue(ch: char): nat
    requires IsHexDigit(ch)
  {
    if IsDigit(ch) then ch as int - '0' as int
    else if 'a' <= ch <= 'f' then ch as int - 'a' as int + 10
    else ch as int - 'A' as int + 10
  }

  /** Length of the run of hexadecimal digits at the start of `s`. */
  function HexRun(s: string): (k: nat)
    ensures k <= |s|
    ensures forall i :: 0 <= i < k ==> IsHexDigit(s[i])
  {
    if |s| > 0 && IsHexDigit(s[0]) then 1 + HexRun(s[1..]) else 0
  }

  function HexValue(d: string): nat
    requires forall i :: 0 <= i < |d| ==> IsHexDigit(d[i])
  {
    if |d| == 0 then 0
    else HexValue(d[..|d| - 1]) * 16 + HexDigitValue(d[|d| - 1])
  }

  /** The value of the run of hexadecimal digits at the start of `b`; `None` when there is none. */
  function LeadingHex(b: string): Option<nat> {
    var k := HexRun(b);
    if k == 0 then None else Some(HexValue(b[..k]))
  }

  /** `b` starts with the "0x" or "0X" prefix that switches `parseInt` to radix 16. */
  predicate HexPrefixed(b: string) {
    |b| >= 2 && b[0] == '0' && (b[1] == 'x' || b[1] == 'X')
  }

  /** The magnitude after the sign: hexadecimal after a "0x" prefix, decimal otherwise. */
  function Magnitude(b: string): Option<nat> {
    if HexPrefixed(b) then LeadingHex(b[2..]) else LeadingDigits(b)
  }

  /**
   * `parseInt(s)` with no radix: leading white space is skipped, then an
   * optional sign; a "0x" or "0X" prefix then selects radix 16, and
   * otherwise the radix is 10. The run of digits of that radix is the value;
   * anything after the run (a fraction, say) is ignored. `None` is NaN (no
   * digit at all).
   */
  function ParseInt(s: string): Option<int> {
    var t := TrimStart(s);
    if |t| > 0 && t[0] == '-' then
      match Magnitude(t[1..])
      case None => None
      case Some(v) => Some(-(v as int))
    else if |t| > 0 && t[0] == '+' then
      match Magnitude(t[1..])
      case None => None
      case Some(v) => Some(v)
    else
      match Magnitude(t)
      case None => None
      case Some(v) => Some(v)
  }

  /**
   * A "0x" or "0X" prefix followed by hexadecimal digits reads them in radix
   * 16, so `parseInt("0x10")` is 16 where a decimal reading would give 0.
   */
  lemma ParseIntHex(s: string)
    requires HexPrefixed(s) && |s| > 2
    requires forall i :: 2 <= i < |s| ==> IsHexDigit(s[i])
    ensures ParseInt(s) == Some(HexValue(s[2..]))
  {
    var d := s[2..];
    assert forall i :: 0 <= i < |d| ==> IsHexDigit(d[i]) by {
      forall i | 0 <= i < |d| ensures IsHexDigit(d[i]) {
        assert d[i] == s[i + 2];
      }
    }
    HexRunAll(d);
    assert d[..|d|] == d;
    TrimStartUnspaced(s);
  }

  lemma {:induction false} HexRunAll(d: string)
    requires forall i :: 0 <= i < |d| ==> IsHexDigit(d[i])
    ensures HexRun(d) == |d|
  {
    if |d| > 0 {
      HexRunAll(d[1..]);
    }
  }

  /**
   * `parseInt` of a string passing `isnumber` is the signed value of the run
   * of digits after the optional "-": any "." and fraction are dropped.
   */
  lemma ParseIntOfNumber(s: string)
    requires IsNumber(s)
    ensures var body := Unsigned(s);
      var whole := DigitsValue(body[..DigitRun(body)]) as int;
      ParseInt(s) == Some(if s[0] == '-' then -whole else whole)
  {
    var body := Unsigned(s);
    assert s[0] == '-' || s[0] == body[0];
    TrimStartUnspaced(s);
  }

  /** Decimal rendering of a natural number. */
  function NatToString(n: nat): (r: string)
    ensures |r| > 0 && AllDigits(r)
  {
    var d := [('0' as int + n % 10) as char];
    if n < 10 then d else NatToString(n / 10) + d
  }

  /** Decimal rendering of an integer, as `String(n)` gives it. */
  function IntToString(n: int): string {
    if n < 0 then "-" + NatToString(-n) else NatToString(n)
  }

  lemma {:induction false} DigitsValueOfNatToString(n: nat)
    ensures DigitsValue(NatToString(n)) == n
    decreases n
  {
    var s := NatToString(n);
    if n >= 10 {
      DigitsValueOfNatToString(n / 10);
      assert s[..|s| - 1] == NatToString(n / 10);
    }
  }

  /** A printed integer is an optional "-" and the digits of its magnitude, nothing else. */
  lemma IntToStringParts(n: int)
    ensures var s, m := IntToString(n), if n < 0 then -n else n;
      && IsNumber(s) && Unsigned(s) == NatToString(m)
      && DigitRun(Unsigned(s)) == |Unsigned(s)|
      && (s[0] == '-' <==> n < 0)
  {
    var m: nat := if n < 0 then -n else n;
    var digits := NatToString(m);
    var s := IntToString(n);
    assert Unsigned(s) == digits by {
      if n < 0 { assert s[1..] == digits; }
    }
    assert !IsDigit('-');
    assert s[0] == '-' <==> n < 0;
    assert digits + "" == digits;
    DigitRunOfDigits(digits, "");
  }

  /** A printed integer is a number and parses back to itself. */
  lemma ParseIntOfIntToString(n: int)
    ensures IsNumber(IntToString(n))
    ensures ParseInt(IntToString(n)) == Some(n)
  {
    var m: nat := if n < 0 then -n else n;
    var s := IntToString(n);
    IntToStringParts(n);
    var body := Unsigned(s);
    assert body[..|body|] == body;
    DigitsValueOfNatToString(m);
    assert DigitsValue(body[..DigitRun(body)]) == m;
    ParseIntOfNumber(s);
  }

  // ---------------------------------------------------------------------------
  // Row cleaning inside get_data_from

  /** A cleaned cell: a number when the text passed `isnumber`, the trimmed text otherwise. */
  datatype Cell = Num(n: int) | Str(s: string)

  /** JavaScript truthiness of a cleaned cell. */
  predicate Truthy(c: Cell) {
    match c
    case Num(n) => n != 0
    case Str(s) => s != ""
  }

  /** One value of a row: trimmed, then `parseInt` when it passes `isnumber`. */
  function CleanValue(v: string): Cell {
    var t := Trim(v);
    if IsNumber(t) then ParseIntOfNumber(t); Num(ParseInt(t).value) else Str(t)
  }

  /** A printed integer has no white space to trim. */
  lemma IntToStringTrimmed(n: int)
    ensures Trim(IntToString(n)) == IntToString(n)
  {
    var s := IntToString(n);
    var digits := NatToString(if n < 0 then -n else n);
    assert s[|s| - 1] == digits[|digits| - 1];
    assert IsDigit(digits[|digits| - 1]);
    assert s[0] == '-' || IsDigit(s[0]);
    TrimOfUnspaced(s);
  }

  /** A printed integer is cleaned back to that integer. */
  lemma CleanValueOfIntToString(n: int)
    ensures CleanValue(IntToString(n)) == Num(n)
  {
    IntToStringTrimmed(n);
    ParseIntOfIntToString(n);
  }

  /** The pairs of a row after cleaning: trimmed keys, cleaned values, in the row's order. */
  function CleanPairs(row: seq<(string, string)>): (r: seq<(string, Cell)>)
    ensures |r| == |row|
    ensures forall i :: 0 <= i < |row| ==> r[i] == (Trim(row[i].0), CleanValue(row[i].1))
  {
    seq(|row|, i requires 0 <= i < |row| => (Trim(row[i].0), CleanValue(row[i].1)))
  }

  /**
   * What cleaning leaves in each column: a key with no white space left to
   * trim, and a value that is a number exactly when its trimmed text passes
   * `isnumber`; any text left as a string is trimmed and is not a number.
   */
  lemma CleanPairsSpec(row: seq<(string, string)>)
    ensures var r := CleanPairs(row);
      && |r| == |row|
      && (forall i :: 0 <= i < |r| ==> Trim(r[i].0) == r[i].0 && r[i].0 == Trim(row[i].0))
      && (forall i :: 0 <= i < |r| ==> (r[i].1.Num? <==> IsNumber(Trim(row[i].1))))
      && (forall i :: 0 <= i < |r| && r[i].1.Str? ==>
            r[i].1.s == Trim(row[i].1) && Trim(r[i].1.s) == r[i].1.s && !IsNumber(r[i].1.s))
  {
    var r := CleanPairs(row);
    forall i | 0 <= i < |r|
      ensures Trim(r[i].0) == r[i].0
      ensures r[i].1.Str? ==> Trim(r[i].1.s) == r[i].1.s
    {
      TrimIdempotent(row[i].0);
      TrimIdempotent(row[i].1);
    }
  }

  /**
   * The cleaning loop of `get_data_from`: every key of the row is trimmed and
   * every value cleaned and stored, so a later key that trims to the same
   * text overwrites an earlier one.
   */
  method CleanRow(row: seq<(string, string)>) returns (r: map<string, Cell>)
    ensures r == Overwrite(CleanPairs(row))
  {
    r := map[];
    var i := 0;
    ghost var pairs := CleanPairs(row);
    while i < |row|
      invariant 0 <= i <= |row|
      invariant r == Overwrite(pairs[..i])
    {
      OverwriteStep(pairs, i);
      r := r[Trim(row[i].0) := CleanValue(row[i].1)];
      i := i + 1;
    }
    assert pairs[..|row|] == pairs;
  }

  /**
   * What a cleaned row holds: each trimmed key of the row, holding the
   * cleaned value of the last pair whose key trims to it.
   */
  lemma CleanRowLast(row: seq<(string, string)>, i: int)
    requires 0 <= i < |row|
    requires forall j :: i < j < |row| ==> Trim(row[j].0) != Trim(row[i].0)
    ensures Trim(row[i].0) in Overwrite(CleanPairs(row))
    ensures Overwrite(CleanPairs(row))[Trim(row[i].0)] == CleanValue(row[i].1)
  {
    var pairs := CleanPairs(row);
    assert IsLast(pairs, i);
    OverwriteLast(pairs, i);
  }

  /** A cleaned row holds no other key than the trimmed keys of the row. */
  lemma CleanRowKeys(row: seq<(string, string)>, k: string) returns (i: int)
    requires k in Overwrite(CleanPairs(row))
    ensures 0 <= i < |row| && Trim(row[i].0) == k
  {
    var pairs := CleanPairs(row);
    OverwriteKeys(pairs, k);
    i :| 0 <= i < |pairs| && pairs[i].0 == k;
  }
}
