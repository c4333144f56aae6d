/** The text form of a cursor: `p` for a reverse one, the time in seconds, `_`, the id.

  Times are whole microseconds since the epoch; their decimal notation is exact. */
module CursorText {
  import opened Wrappers
  import opened Pagination
  import opened Decimal

  // ---- Digits of a given width

  /** The last `width` decimal digits of `n`. */
  function Digits(n: nat, width: nat): (s: string)
    ensures |s| == width && AllDigits(s)
  {
    if width == 0 then "" else Digits(n / 10, width - 1) + [DigitChar(n % 10)]
  }

  function Pow10(k: nat): (p: nat)
    ensures p > 0
  {
    if k == 0 then 1 else 10 * Pow10(k - 1)
  }

  lemma {:induction false} ValueOfDigits(n: nat, width: nat)
    requires n < Pow10(width)
    ensures Value(Digits(n, width)) == Some(n)
  {
    if width > 0 {
      ValueOfDigits(n / 10, width - 1);
      ValueSnoc(Digits(n / 10, width - 1), n % 10);
    }
  }

  // ---- Numbers

  /** The fraction `n` / 10^width without trailing zeros. */
  function PrintFraction(n: nat, width: nat): (s: string)
    ensures |s| <= width && AllDigits(s)
  {
    if n == 0 || width == 0 then ""
    else if n % 10 == 0 then PrintFraction(n / 10, width - 1)
    else Digits(n, width)
  }

  /** Digits of a fraction, scaled to 10^width; more digits than that are refused. */
  function FractionValue(s: string, width: nat): Option<nat> {
    if |s| > width || Value(s).None? then None else Some(Value(s).value * Pow10(width - |s|))
  }

  lemma {:induction false} FractionRoundTrip(n: nat, width: nat)
    requires n < Pow10(width)
    ensures FractionValue(PrintFraction(n, width), width) == Some(n)
    ensures n != 0 <==> PrintFraction(n, width) != ""
  {
    if n != 0 {
      if n % 10 == 0 {
        FractionRoundTrip(n / 10, width - 1);
        var s := PrintFraction(n / 10, width - 1);
        var v := Value(s).value;
        assert v * Pow10(width - 1 - |s|) == n / 10;
        assert v * (10 * Pow10(width - 1 - |s|)) == 10 * (v * Pow10(width - 1 - |s|));
      } else {
        ValueOfDigits(n, width);
      }
    }
  }

  function Sign(n: int): string { if n < 0 then "-" else "" }

  function Abs(n: int): nat { if n < 0 then -n else n }

  function PrintInt(n: int): string { Sign(n) + PrintNat(Abs(n)) }

  const MICROS: nat := 1000000

  /** Seconds; the fractional part is there only when it matters. */
  function PrintSeconds(micros: nat): string {
    var fraction := PrintFraction(micros % MICROS, 6);
    PrintNat(micros / MICROS) + if fraction == "" then "" else ['.'] + fraction
  }

  function PrintTime(micros: int): string { Sign(micros) + PrintSeconds(Abs(micros)) }

  /** Cut off a leading minus sign. */
  function TakeSign(s: string): (bool, string) {
    if s != "" && s[0] == '-' then (true, s[1..]) else (false, s)
  }

  function ParseNat(s: string): Option<nat> {
    if s == "" then None else Value(s)
  }

  function Signed(negative: bool, n: int): int { if negative then -n else n }

  function ParseInt(s: string): Option<int> {
    var (negative, digits) := TakeSign(s);
    var n := ParseNat(digits);
    if n.None? then None else Some(Signed(negative, n.value))
  }

  function Find(s: string, c: char): (n: nat)
    ensures n <= |s| && c !in s[..n] && (n < |s| ==> s[n] == c)
  {
    if s == "" || s[0] == c then 0 else 1 + Find(s[1..], c)
  }

  /** An unsigned decimal number of seconds, as microseconds. */
  function ParseSeconds(s: string): Option<nat> {
    var dot := Find(s, '.');
    if dot == |s| - 1 then None else
    var whole := ParseNat(s[..dot]);
    var fraction := if dot == |s| then Some(0) else FractionValue(s[dot + 1..], 6);
    if whole.None? || fraction.None? then None else Some(whole.value * MICROS + fraction.value)
  }

  function ParseTime(s: string): Option<int> {
    var (negative, rest) := TakeSign(s);
    var micros := ParseSeconds(rest);
    if micros.None? then None else Some(Signed(negative, micros.value))
  }

  lemma {:induction false} FindOf(s: string, c: char, rest: string)
    requires c !in s && (rest != "" ==> rest[0] == c)
    ensures Find(s + rest, c) == |s|
  {
    if s == "" {
      assert s + rest == rest;
    } else {
      assert (s + rest)[1..] == s[1..] + rest;
      FindOf(s[1..], c, rest);
    }
  }

  lemma {:induction false} SignOf(n: int, rest: string)
    requires rest != "" && IsDigit(rest[0])
    ensures TakeSign(Sign(n) + rest) == (n < 0, rest)
  {
    assert "" + rest == rest;
  }

  lemma {:induction false} IntRoundTrip(n: int)
    ensures ParseInt(PrintInt(n)) == Some(n)
  {
    SignOf(n, PrintNat(Abs(n)));
    ValueOfPrint(Abs(n));
  }

  lemma {:induction false} DecimalRoundTrip(whole: string, fraction: string)
    requires whole != "" && AllDigits(whole) && Value(whole).Some?
    requires FractionValue(fraction, 6).Some?
    ensures ParseSeconds(whole + if fraction == "" then "" else ['.'] + fraction) ==
            Some(Value(whole).value * MICROS + FractionValue(fraction, 6).value)
  {
    var tail := if fraction == "" then "" else ['.'] + fraction;
    var s := whole + tail;
    assert '.' !in whole by {
      assert forall i :: 0 <= i < |whole| ==> IsDigit(whole[i]);
    }
    FindOf(whole, '.', tail);
    assert s[..|whole|] == whole;
    if fraction != "" {
      assert s[|whole| + 1..] == fraction;
    } else {
      assert Value(fraction) == Some(0);
    }
  }

  lemma {:induction false} SecondsRoundTrip(n: nat)
    ensures ParseSeconds(PrintSeconds(n)) == Some(n)
    ensures PrintSeconds(n) != "" && IsDigit(PrintSeconds(n)[0])
  {
    var whole, micros := n / MICROS, n % MICROS;
    ValueOfPrint(whole);
    assert Pow10(6) == MICROS;
    FractionRoundTrip(micros, 6);
    DecimalRoundTrip(PrintNat(whole), PrintFraction(micros, 6));
    assert PrintSeconds(n)[0] == PrintNat(whole)[0];
  }

  lemma {:induction false} TimeRoundTrip(micros: int)
    ensures ParseTime(PrintTime(micros)) == Some(micros)
  {
    var n := Abs(micros);
    SecondsRoundTrip(n);
    SignOf(micros, PrintSeconds(n));
  }

  // ---- Cursors

  function Print(c: Cursor): string {
    var body := PrintTime(c.time) + (['_'] + PrintInt(c.id));
    if c.previous then ['p'] + body else body
  }

  /** What follows the direction: exactly two parts around one `_`. */
  function ParseBody(previous: bool, body: string): Option<Cursor> {
    var n := Find(body, '_');
    if n == |body| || '_' in body[n + 1..] then None else
    var time, id := ParseTime(body[..n]), ParseInt(body[n + 1..]);
    if time.None? || id.None? then None else Some(Cursor(previous, time.value, id.value))
  }

  /** None stands for `InvalidCursorError`. */
  function Parse(s: string): Option<Cursor> {
    if s != "" && s[0] == 'p' then ParseBody(true, s[1..]) else ParseBody(false, s)
  }

  lemma {:induction false} PlainCharacters(n: int)
    ensures PrintTime(n) != "" && PrintTime(n)[0] != 'p' && '_' !in PrintTime(n)
    ensures '_' !in PrintInt(n)
  {}

  lemma {:induction false} BodyOf(previous: bool, time: string, id: string)
    requires '_' !in time && '_' !in id
    ensures ParseBody(previous, time + (['_'] + id)) ==
            if ParseTime(time).None? || ParseInt(id).None? then None
            else Some(Cursor(previous, ParseTime(time).value, ParseInt(id).value))
  {
    var body := time + (['_'] + id);
    FindOf(time, '_', ['_'] + id);
    assert body[..|time|] == time && body[|time| + 1..] == id;
  }

  /** Every cursor is read back from its text. */
  lemma {:induction false} CursorRoundTrip(c: Cursor)
    ensures Parse(Print(c)) == Some(c)
  {
    var time, id := PrintTime(c.time), PrintInt(c.id);
    PlainCharacters(c.time);
    PlainCharacters(c.id);
    BodyOf(c.previous, time, id);
    TimeRoundTrip(c.time);
    IntRoundTrip(c.id);
    FirstCharacter(c);
  }

  lemma {:induction false} FirstCharacter(c: Cursor)
    ensures var body := PrintTime(c.time) + (['_'] + PrintInt(c.id));
            Parse(Print(c)) == ParseBody(c.previous, body)
  {}

  /** A text is the one of a cursor only if there is exactly one `_` in it. */
  lemma {:induction false} OneSeparator(s: string)
    requires Parse(s).Some?
    ensures exists n :: 0 <= n < |s| && s[n] == '_' && forall m :: 0 <= m < |s| && m != n ==> s[m] != '_'
  {
    var offset := if s != "" && s[0] == 'p' then 1 else 0;
    var body := s[offset..];
    var n := Find(body, '_');
    forall m | 0 <= m < |s| && m != offset + n ensures s[m] != '_' {
      if m >= offset {
        assert s[m] == body[m - offset];
        assert m - offset < n ==> body[..n][m - offset] != '_';
        assert m - offset > n ==> body[n + 1..][m - offset - n - 1] != '_';
      }
    }
  }

  lemma {:induction false} HalfASecond()
    ensures PrintSeconds(1500000) == "1.5" && PrintSeconds(2000000) == "2"
  {
    assert Digits(5, 0) == "" && Digits(5, 1) == "5";
    assert PrintFraction(5, 1) == "5";
    assert PrintFraction(50, 2) == "5";
    assert PrintFraction(500, 3) == "5";
    assert PrintFraction(5000, 4) == "5";
    assert PrintFraction(50000, 5) == "5";
    assert PrintFraction(500000, 6) == "5";
    assert PrintNat(1) == "1" && PrintNat(2) == "2";
  }

  /** The direction, seconds with no more of a fraction than matters, and the id. */
  lemma {:induction false} PrintedForm()
    ensures Print(Cursor(true, 1500000, 7)) == "p1.5_7"
    ensures Print(Cursor(false, -2000000, -7)) == "-2_-7"
  {
    HalfASecond();
    assert PrintNat(7) == "7";
  }
}
