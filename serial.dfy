/**
 * The arrival-time serial fed into the fingerprint checksum:
 * `strftime("%Y%m%d%H%M%S%f")`, i.e. seven zero-padded decimal fields,
 * twenty digits in all.
 */
module Serial {
  import opened Wrappers

  /** A broken-down local time as `datetime.now()` returns it. */
  datatype DateTime = DateTime(year: int, month: int, day: int,
                               hour: int, minute: int, second: int, microsecond: int)

  predicate IsLeap(year: int) {
    (year % 4 == 0 && year % 100 != 0) || year % 400 == 0
  }

  function DaysIn(year: int, month: int): int {
    if month == 2 then (if IsLeap(year) then 29 else 28)
    else if month == 4 || month == 6 || month == 9 || month == 11 then 30
    else 31
  }

  /**
   * A time the clock can report. Years are kept to four digits, the range
   * in which `%Y` pads to a fixed width.
   */
  predicate Valid(d: DateTime) {
    && 1000 <= d.year <= 9999
    && 1 <= d.month <= 12
    && 1 <= d.day <= DaysIn(d.year, d.month)
    && 0 <= d.hour < 24
    && 0 <= d.minute < 60
    && 0 <= d.second < 60
    && 0 <= d.microsecond < 1000000
  }

  // ---- fixed-width decimal fields ----

  function Pow10(k: nat): (r: nat)
    ensures r >= 1
  {
    if k == 0 then 1 else 10 * Pow10(k - 1)
  }

  predicate IsDigit(c: char) {
    '0' <= c <= '9'
  }

  predicate IsDigits(s: string) {
    forall i :: 0 <= i < |s| ==> IsDigit(s[i])
  }

  function DigitChar(d: nat): (c: char)
    requires d < 10
    ensures IsDigit(c)
  {
    ('0' as int + d) as char
  }

  /** `n` written in exactly `width` decimal digits, leading zeros included. */
  function Pad(n: nat, width: nat): (r: string)
    requires n < Pow10(width)
    ensures |r| == width && IsDigits(r)
  {
    if width == 0 then ""
    else Pad(n / 10, width - 1) + [DigitChar(n % 10)]
  }

  /** The number a string of decimal digits denotes. */
  function ValueOf(s: string): (n: nat)
    requires IsDigits(s)
    ensures n < Pow10(|s|)
  {
    if s == [] then 0
    else ValueOf(s[..|s| - 1]) * 10 + (s[|s| - 1] as int - '0' as int)
  }

  lemma {:induction false} ValueOfPad(n: nat, width: nat)
    requires n < Pow10(width)
    ensures ValueOf(Pad(n, width)) == n
  {
    if width > 0 {
      var p := Pad(n, width);
      ValueOfPad(n / 10, width - 1);
      assert p[..|p| - 1] == Pad(n / 10, width - 1);
    }
  }

  lemma {:induction false} PadValueOf(s: string)
    requires IsDigits(s)
    ensures Pad(ValueOf(s), |s|) == s
  {
    if s != [] {
      var init := s[..|s| - 1];
      var n := ValueOf(s);
      PadValueOf(init);
      assert n / 10 == ValueOf(init) && n % 10 == s[|s| - 1] as int - '0' as int;
      assert s == init + [s[|s| - 1]];
    }
  }

  // ---- the serial ----

  /** `strftime("%Y%m%d%H%M%S%f")` of a valid time. */
  function SerialOf(d: DateTime): (r: string)
    requires Valid(d)
    ensures |r| == 20 && IsDigits(r)
  {
    Pad(d.year, 4) + Pad(d.month, 2) + Pad(d.day, 2)
      + Pad(d.hour, 2) + Pad(d.minute, 2) + Pad(d.second, 2) + Pad(d.microsecond, 6)
  }

  /** Reads a serial back into its fields; `None` for anything that is not one. */
  function ParseSerial(s: string): (r: Option<DateTime>)
    ensures r.Some? ==> Valid(r.value)
  {
    if |s| == 20 && IsDigits(s) then
      assert IsDigits(s[0..4]) && IsDigits(s[4..6]) && IsDigits(s[6..8]) && IsDigits(s[8..10]);
      assert IsDigits(s[10..12]) && IsDigits(s[12..14]) && IsDigits(s[14..20]);
      var d := DateTime(ValueOf(s[0..4]), ValueOf(s[4..6]), ValueOf(s[6..8]),
                        ValueOf(s[8..10]), ValueOf(s[10..12]), ValueOf(s[12..14]), ValueOf(s[14..20]));
      if Valid(d) then Some(d) else None
    else None
  }

  /** The seven fixed field positions of a serial agree between `s` and `t`. */
  predicate SameFields(s: string, t: string)
    requires |s| == 20 && |t| == 20
  {
    && s[0..4] == t[0..4] && s[4..6] == t[4..6] && s[6..8] == t[6..8] && s[8..10] == t[8..10]
    && s[10..12] == t[10..12] && s[12..14] == t[12..14] && s[14..20] == t[14..20]
  }

  /** The seven fields cover the serial: agreeing on them is being equal. */
  lemma FieldsCover(s: string, t: string)
    requires |s| == 20 && |t| == 20 && SameFields(s, t)
    ensures s == t
  {
    forall i | 0 <= i < 20
      ensures s[i] == t[i]
    {
      if i < 4 { assert s[0..4][i] == t[0..4][i]; }
      else if i < 6 { assert s[4..6][i - 4] == t[4..6][i - 4]; }
      else if i < 8 { assert s[6..8][i - 6] == t[6..8][i - 6]; }
      else if i < 10 { assert s[8..10][i - 8] == t[8..10][i - 8]; }
      else if i < 12 { assert s[10..12][i - 10] == t[10..12][i - 10]; }
      else if i < 14 { assert s[12..14][i - 12] == t[12..14][i - 12]; }
      else { assert s[14..20][i - 14] == t[14..20][i - 14]; }
    }
  }

  /** Splits a serial into its seven fields. */
  lemma SerialFields(d: DateTime)
    requires Valid(d)
    ensures var s := SerialOf(d);
            && s[0..4] == Pad(d.year, 4) && s[4..6] == Pad(d.month, 2) && s[6..8] == Pad(d.day, 2)
            && s[8..10] == Pad(d.hour, 2) && s[10..12] == Pad(d.minute, 2)
            && s[12..14] == Pad(d.second, 2) && s[14..20] == Pad(d.microsecond, 6)
  {
    var p1 := Pad(d.year, 4);
    var p2 := p1 + Pad(d.month, 2);
    var p3 := p2 + Pad(d.day, 2);
    var p4 := p3 + Pad(d.hour, 2);
    var p5 := p4 + Pad(d.minute, 2);
    var p6 := p5 + Pad(d.second, 2);
    var s := p6 + Pad(d.microsecond, 6);
    assert s == SerialOf(d);
    assert s[..14] == p6 && s[14..20] == Pad(d.microsecond, 6);
    assert p6[..12] == p5 && p6[12..14] == Pad(d.second, 2);
    assert p5[..10] == p4 && p5[10..12] == Pad(d.minute, 2);
    assert p4[..8] == p3 && p4[8..10] == Pad(d.hour, 2);
    assert p3[..6] == p2 && p3[6..8] == Pad(d.day, 2);
    assert p2[..4] == p1 && p2[4..6] == Pad(d.month, 2);
    assert s[0..4] == p1;
    assert s[4..6] == p2[4..6];
    assert s[6..8] == p3[6..8];
    assert s[8..10] == p4[8..10];
    assert s[10..12] == p5[10..12];
    assert s[12..14] == p6[12..14];
  }

  /** Distinct times give distinct serials: the time can be read back. */
  lemma SerialRoundTrip(d: DateTime)
    requires Valid(d)
    ensures ParseSerial(SerialOf(d)) == Some(d)
  {
    SerialFields(d);
    ValueOfPad(d.year, 4);
    ValueOfPad(d.month, 2);
    ValueOfPad(d.day, 2);
    ValueOfPad(d.hour, 2);
    ValueOfPad(d.minute, 2);
    ValueOfPad(d.second, 2);
    ValueOfPad(d.microsecond, 6);
  }

  /** Every string that parses is the serial of what it parses to. */
  lemma ParseRoundTrip(s: string)
    requires ParseSerial(s).Some?
    ensures SerialOf(ParseSerial(s).value) == s
  {
    var d := ParseSerial(s).value;
    assert IsDigits(s[0..4]) && IsDigits(s[4..6]) && IsDigits(s[6..8]) && IsDigits(s[8..10]);
    assert IsDigits(s[10..12]) && IsDigits(s[12..14]) && IsDigits(s[14..20]);
    PadValueOf(s[0..4]);
    PadValueOf(s[4..6]);
    PadValueOf(s[6..8]);
    PadValueOf(s[8..10]);
    PadValueOf(s[10..12]);
    PadValueOf(s[12..14]);
    PadValueOf(s[14..20]);
    SerialFields(d);
    FieldsCover(SerialOf(d), s);
  }
}
