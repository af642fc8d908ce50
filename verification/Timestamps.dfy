/** `parse_rfc3339_millis` of `crates/quota/src/lib.rs`, and the printer it undoes
    (sections 5.6 and 5.7 of RFC 3339). Strings are UTF-8 byte strings, one char a byte. */
module Timestamps {
  import opened Options
  import opened Decimals
  import opened Calendar

  // ----- The parser -----

  /** A run of digits as a number; None where the slice is missing or not all digits. */
  function Digits(s: string, start: nat, end: nat): Option<nat>
    requires start <= end
  {
    if end <= |s| && AllDigits(s[start..end]) then Some(DecimalValue(s[start..end])) else None
  }

  /** `checked_mul`, `checked_add` and `checked_sub`: None outside 64 signed bits. */
  function Checked(n: int): Option<int> {
    if -I64_MAX - 1 <= n <= I64_MAX then Some(n) else None
  }

  /** `u64::try_from`: None for a negative number. */
  function FromSigned(n: int): Option<nat> {
    if n >= 0 then Some(n) else None
  }

  function LeadingDigits(s: string): (n: nat)
    ensures n <= |s| && AllDigits(s[..n])
    ensures n < |s| ==> !IsDigit(s[n])
  {
    if s == "" || !IsDigit(s[0]) then 0
    else
      var n := LeadingDigits(s[1..]);
      assert s[..n + 1] == [s[0]] + s[1..][..n];
      1 + n
  }

  function PadRight(s: string, width: nat): (r: string)
    requires AllDigits(s)
    ensures AllDigits(r) && (|s| <= width ==> |r| == width)
    decreases width - |s|
  {
    if |s| >= width then s else PadRight(s + "0", width)
  }

  /** The optional fraction: its milliseconds and what follows it. */
  function ParseFraction(rest: string): Option<(nat, string)> {
    if rest == "" || rest[0] != '.' then Some((0, rest))
    else
      var fraction := rest[1..];
      var length := LeadingDigits(fraction);
      if length == 0 || length > 9 then None
      else Some((DecimalValue(PadRight(fraction[..if length < 3 then length else 3], 3)), fraction[length..]))
  }

  /** The zone designator as seconds east of UTC. */
  function ParseZone(rest: string): Option<int> {
    if |rest| == 1 && rest[0] in {'Z', 'z'} then Some(0)
    else if |rest| == 6 && rest[0] in {'+', '-'} && rest[3] == ':' then
      var hours :- Digits(rest, 1, 3);
      var minutes :- Digits(rest, 4, 6);
      if hours > 23 || minutes > 59 then None
      else
        var magnitude := hours * 3600 + minutes * 60;
        Some(if rest[0] == '+' then magnitude else -magnitude)
    else None
  }

  datatype Clock = Clock(date: Date, separator: char, hour: nat, minute: nat, second: nat)

  /** The nineteen bytes of date and time, with the range checks of every field. */
  function ParseClock(value: string): Option<Clock> {
    if |value| < 20 || value[4] != '-' || value[7] != '-' || value[10] !in {'T', 't'}
       || value[13] != ':' || value[16] != ':' then None
    else
      var year :- Digits(value, 0, 4);
      var month :- Digits(value, 5, 7);
      var day :- Digits(value, 8, 10);
      var hour :- Digits(value, 11, 13);
      var minute :- Digits(value, 14, 16);
      var second :- Digits(value, 17, 19);
      if !(1 <= month <= 12) || !(1 <= day <= 31) || hour > 23 || minute > 59 || second > 60 then None
      else Some(Clock(Date(year, month, day), value[10], hour, minute, second))
  }

  /** The checked arithmetic from fields to unsigned milliseconds. */
  function Combine(clock: Clock, millis: nat, offset: int): Option<nat> {
    var days := EraDays(clock.date);
    var midnight :- Checked(days * 86400);
    var local :- Checked(midnight + (clock.hour * 3600 + clock.minute * 60 + clock.second));
    var seconds :- Checked(local - offset);
    var whole :- Checked(seconds * 1000);
    var total :- Checked(whole + millis);
    FromSigned(total)
  }

  function ParseMillis(value: string): Option<nat> {
    var clock :- ParseClock(value);
    var (millis, rest) :- ParseFraction(value[19..]);
    var offset :- ParseZone(rest);
    Combine(clock, millis, offset)
  }

  // ----- The printer -----

  datatype Zone = Utc(letter: char) | Numeric(sign: char, hours: nat, minutes: nat)

  datatype Stamp = Stamp(clock: Clock, fraction: string, zone: Zone)

  /** The stamps the grammar of section 5.6 and the parser's ranges admit: two-digit fields
      in range, day up to 31 in every month, a leap second, at most nine fraction digits. */
  predicate IsStamp(t: Stamp) {
    IsClock(t.clock) && |t.fraction| <= 9 && AllDigits(t.fraction) && IsZone(t.zone)
  }

  predicate IsClock(c: Clock) {
    && 0 <= c.date.year <= 9999 && 1 <= c.date.month <= 12 && 1 <= c.date.day <= 31
    && c.separator in {'T', 't'}
    && c.hour <= 23 && c.minute <= 59 && c.second <= 60
  }

  predicate IsZone(z: Zone) {
    match z
    case Utc(letter) => letter in {'Z', 'z'}
    case Numeric(sign, hours, minutes) => sign in {'+', '-'} && hours <= 23 && minutes <= 59
  }

  function ZoneSeconds(z: Zone): int {
    match z
    case Utc(_) => 0
    case Numeric(sign, hours, minutes) =>
      var magnitude := hours * 3600 + minutes * 60;
      if sign == '+' then magnitude else -magnitude
  }

  /** Whole milliseconds of a decimal fraction, the rest cut off. */
  function FractionMillis(fraction: string): int
    requires AllDigits(fraction)
  {
    DecimalValue(fraction) * 1000 / Pow10(|fraction|)
  }

  /** Seconds since 1970-01-01T00:00:00Z on the local clock. */
  function LocalSeconds(c: Clock): int
    requires c.date.year >= 0
  {
    DayNumber(c.date) * 86400 + c.hour * 3600 + c.minute * 60 + c.second
  }

  /** Milliseconds since 1970-01-01T00:00:00Z: local time minus the offset. */
  function InstantOf(t: Stamp): int
    requires IsStamp(t)
  {
    (LocalSeconds(t.clock) - ZoneSeconds(t.zone)) * 1000 + FractionMillis(t.fraction)
  }

  function PrintZone(z: Zone): string {
    match z
    case Utc(letter) => [letter]
    case Numeric(sign, hours, minutes) => [sign] + Padded(hours, 2) + ":" + Padded(minutes, 2)
  }

  function PrintFraction(fraction: string): string {
    if fraction == "" then "" else "." + fraction
  }

  function PrintClock(c: Clock): (s: string)
    requires IsClock(c)
    ensures |s| == 19
  {
    Padded(c.date.year, 4) + "-" + Padded(c.date.month, 2) + "-" + Padded(c.date.day, 2) + [c.separator]
    + Padded(c.hour, 2) + ":" + Padded(c.minute, 2) + ":" + Padded(c.second, 2)
  }

  function Print(t: Stamp): string
    requires IsStamp(t)
  {
    PrintClock(t.clock) + (PrintFraction(t.fraction) + PrintZone(t.zone))
  }

  // ----- Parsing undoes printing -----

  lemma {:induction false} PadRightValue(s: string)
    requires AllDigits(s) && |s| <= 3
    ensures DecimalValue(PadRight(s, 3)) == DecimalValue(s) * Pow10(3 - |s|)
    decreases 3 - |s|
  {
    if |s| < 3 {
      PadRightValue(s + "0");
      DecimalConcat(s, "0");
      assert DecimalValue("0") == 0 && Pow10(1) == 10;
      Regroup(DecimalValue(s), 10, Pow10(2 - |s|));
    }
  }

  lemma Multiples(k: int, scale: int)
    requires scale > 0
    ensures k >= 1 ==> k * scale >= scale
    ensures k <= -1 ==> k * scale <= -scale
  {
  }

  lemma Truncated(high: nat, low: nat, scale: nat)
    requires low < scale
    ensures (high * scale + low) / scale == high
  {
    var q := (high * scale + low) / scale;
    assert (q - high) * scale == q * scale - high * scale;
    Multiples(q - high, scale);
  }

  lemma {:induction false} Pow10Splits(a: nat, b: nat)
    ensures Pow10(a + b) == Pow10(a) * Pow10(b)
  {
    if a > 0 {
      Pow10Splits(a - 1, b);
    }
  }

  /** The first three digits, zero-filled, are the fraction truncated to milliseconds. */
  lemma FractionTruncates(fraction: string)
    requires AllDigits(fraction) && 0 < |fraction|
    ensures DecimalValue(PadRight(fraction[..if |fraction| < 3 then |fraction| else 3], 3)) == FractionMillis(fraction)
  {
    if |fraction| <= 3 {
      assert fraction[..|fraction|] == fraction;
      PadRightValue(fraction);
      ShortFraction(DecimalValue(fraction), |fraction|);
    } else {
      var high, low := fraction[..3], fraction[3..];
      assert fraction == high + low;
      DecimalConcat(high, low);
      DecimalBound(low);
      LongFraction(DecimalValue(high), DecimalValue(low), |low|);
    }
  }

  lemma ShortFraction(v: nat, n: nat)
    requires n <= 3
    ensures v * 1000 / Pow10(n) == v * Pow10(3 - n)
  {
    Pow10Splits(3 - n, n);
    Thousand();
    Regroup(v, Pow10(3 - n), Pow10(n));
    Truncated(v * Pow10(3 - n), 0, Pow10(n));
  }

  lemma LongFraction(h: nat, l: nat, n: nat)
    requires l < Pow10(n)
    ensures (h * Pow10(n) + l) * 1000 / Pow10(3 + n) == h
  {
    Pow10Splits(3, n);
    Thousand();
    Regroup(h, Pow10(n), 1000);
    Truncated(h, l * 1000, 1000 * Pow10(n));
  }

  lemma Regroup(a: nat, b: nat, c: nat)
    ensures a * (b * c) == a * b * c
  {
  }

  lemma Thousand()
    ensures Pow10(3) == 1000
  {
    assert Pow10(2) == 100;
  }

  lemma ParseZoneUndoes(z: Zone)
    requires IsZone(z)
    ensures ParseZone(PrintZone(z)) == Some(ZoneSeconds(z))
    ensures PrintZone(z) != "" && !IsDigit(PrintZone(z)[0]) && PrintZone(z)[0] != '.'
  {
    if z.Numeric? {
      var s := PrintZone(z);
      assert s[1..3] == Padded(z.hours, 2) && s[4..6] == Padded(z.minutes, 2);
      TwoDigits(z.hours);
      TwoDigits(z.minutes);
    }
  }

  lemma TwoDigits(n: nat)
    requires n < 100
    ensures DecimalValue(Padded(n, 2)) == n
  {
    assert Pow10(2) == 100 by { assert Pow10(1) == 10; }
    PaddedReads(n, 2);
  }

  lemma FourDigits(n: nat)
    requires n < 10000
    ensures DecimalValue(Padded(n, 4)) == n
  {
    assert Pow10(4) == 10000 by { assert Pow10(2) == 100; }
    PaddedReads(n, 4);
  }

  lemma {:induction false} LeadingDigitsOf(digits: string, tail: string)
    requires AllDigits(digits) && tail != "" && !IsDigit(tail[0])
    ensures LeadingDigits(digits + tail) == |digits|
  {
    if digits != "" {
      assert (digits + tail)[1..] == digits[1..] + tail;
      LeadingDigitsOf(digits[1..], tail);
    }
  }

  lemma ParseFractionUndoes(fraction: string, tail: string)
    requires AllDigits(fraction) && |fraction| <= 9
    requires tail != "" && !IsDigit(tail[0]) && tail[0] != '.'
    ensures ParseFraction(PrintFraction(fraction) + tail) == Some((FractionMillis(fraction), tail))
  {
    if fraction == "" {
      assert PrintFraction(fraction) + tail == tail;
    } else {
      var rest := PrintFraction(fraction) + tail;
      assert rest[1..] == fraction + tail;
      LeadingDigitsOf(fraction, tail);
      FractionTruncates(fraction);
      var k := if |fraction| < 3 then |fraction| else 3;
      assert (fraction + tail)[..k] == fraction[..k];
      assert (fraction + tail)[|fraction|..] == tail;
    }
  }

  lemma ParseClockUndoes(c: Clock, tail: string)
    requires IsClock(c) && tail != ""
    ensures ParseClock(PrintClock(c) + tail) == Some(c)
    ensures (PrintClock(c) + tail)[19..] == tail
  {
    var s := PrintClock(c) + tail;
    FourDigits(c.date.year);
    TwoDigits(c.date.month);
    TwoDigits(c.date.day);
    TwoDigits(c.hour);
    TwoDigits(c.minute);
    TwoDigits(c.second);
    assert s[0..4] == Padded(c.date.year, 4);
    assert s[5..7] == Padded(c.date.month, 2);
    assert s[8..10] == Padded(c.date.day, 2);
    assert s[11..13] == Padded(c.hour, 2);
    assert s[14..16] == Padded(c.minute, 2);
    assert s[17..19] == Padded(c.second, 2);
  }

  lemma DayNumberBounds(d: Date)
    requires 0 <= d.year <= 9999 && 1 <= d.month <= 12 && 1 <= d.day <= 31
    ensures -1_000_000 < EraDays(d) < 4_000_000
  {
    EraClosedForm(d);
  }

  lemma FractionBound(fraction: string)
    requires AllDigits(fraction) && |fraction| <= 9
    ensures 0 <= FractionMillis(fraction) < 1000
  {
    if fraction != "" {
      FractionTruncates(fraction);
      DecimalBound(PadRight(fraction[..if |fraction| < 3 then |fraction| else 3], 3));
      Thousand();
    }
  }

  /** No checked operation fails on a clock in range. */
  lemma CombineNeverOverflows(c: Clock, millis: nat, offset: int, total: int)
    requires IsClock(c) && millis < 1000 && -86400 < offset < 86400
    requires total == (LocalSeconds(c) - offset) * 1000 + millis
    ensures Combine(c, millis, offset) == FromSigned(total)
  {
    FormulaCountsDays(c.date);
    DayNumberBounds(c.date);
  }

  /** Parsing a printed stamp gives its instant, and None exactly before 1970. */
  lemma ParseUndoesPrint(t: Stamp)
    requires IsStamp(t)
    ensures ParseMillis(Print(t)) == FromSigned(InstantOf(t))
  {
    ParseZoneUndoes(t.zone);
    ParseClockUndoes(t.clock, PrintFraction(t.fraction) + PrintZone(t.zone));
    ParseFractionUndoes(t.fraction, PrintZone(t.zone));
    FractionBound(t.fraction);
    ParseInSteps(Print(t), t.clock, FractionMillis(t.fraction), PrintZone(t.zone), ZoneSeconds(t.zone));
    CombineNeverOverflows(t.clock, FractionMillis(t.fraction), ZoneSeconds(t.zone), InstantOf(t));
  }

  lemma ParseInSteps(value: string, clock: Clock, millis: nat, rest: string, offset: int)
    requires ParseClock(value) == Some(clock)
    requires ParseFraction(value[19..]) == Some((millis, rest))
    requires ParseZone(rest) == Some(offset)
    ensures ParseMillis(value) == Combine(clock, millis, offset)
  {
  }

  // ----- Nothing else is accepted -----

  /** The digits of `s[start..end]`, printed again, are the same characters. */
  lemma DigitsWrite(s: string, start: nat, end: nat)
    requires start <= end <= |s| && Digits(s, start, end).Some?
    ensures Padded(Digits(s, start, end).value, end - start) == s[start..end]
  {
    PaddedWrites(s[start..end]);
  }

  lemma ZoneWrites(s: string) returns (z: Zone)
    requires ParseZone(s).Some?
    ensures PrintZone(z) == s
    ensures IsZone(z)
  {
    if |s| == 1 {
      z := Utc(s[0]);
    } else {
      z := Numeric(s[0], Digits(s, 1, 3).value, Digits(s, 4, 6).value);
      DigitsWrite(s, 1, 3);
      DigitsWrite(s, 4, 6);
      assert s == [s[0]] + s[1..3] + ":" + s[4..6];
    }
  }

  lemma FractionWrites(rest: string) returns (fraction: string)
    requires ParseFraction(rest).Some?
    ensures AllDigits(fraction) && |fraction| <= 9
    ensures rest == PrintFraction(fraction) + ParseFraction(rest).value.1
  {
    if rest == "" || rest[0] != '.' {
      fraction := "";
    } else {
      var n := LeadingDigits(rest[1..]);
      fraction := rest[1..][..n];
      assert rest == "." + (fraction + rest[1..][n..]);
    }
  }

  lemma ClockInRange(s: string)
    requires ParseClock(s).Some?
    ensures IsClock(ParseClock(s).value)
  {
    DecimalBound(s[0..4]);
    Thousand();
    assert Pow10(4) == 10 * Pow10(3);
  }

  lemma ClockWrites(s: string, c: Clock)
    requires ParseClock(s) == Some(c) && IsClock(c)
    ensures PrintClock(c) == s[..19]
  {
    DigitsWrite(s, 0, 4);
    DigitsWrite(s, 5, 7);
    DigitsWrite(s, 8, 10);
    DigitsWrite(s, 11, 13);
    DigitsWrite(s, 14, 16);
    DigitsWrite(s, 17, 19);
    ClockPieces(s);
  }

  lemma ClockPieces(s: string)
    requires |s| >= 19 && s[4] == '-' && s[7] == '-' && s[13] == ':' && s[16] == ':'
    ensures s[..19] == s[0..4] + "-" + s[5..7] + "-" + s[8..10] + [s[10]]
                       + s[11..13] + ":" + s[14..16] + ":" + s[17..19]
  {
  }

  /** Every string the parser accepts is a printed stamp. */
  lemma AcceptedIsPrinted(s: string) returns (t: Stamp)
    requires ParseMillis(s).Some?
    ensures IsStamp(t) && Print(t) == s
  {
    ClockInRange(s);
    ClockWrites(s, ParseClock(s).value);
    var fraction := FractionWrites(s[19..]);
    var zone := ZoneWrites(ParseFraction(s[19..]).value.1);
    t := Stamp(ParseClock(s).value, fraction, zone);
    assert s == s[..19] + s[19..];
  }

  /** The accepted strings and their values, exactly: the printed stamps from 1970 on. */
  lemma ParserMeaning(s: string, millis: nat)
    ensures ParseMillis(s) == Some(millis)
            <==> exists t :: IsStamp(t) && Print(t) == s && InstantOf(t) == millis
  {
    if ParseMillis(s) == Some(millis) {
      var t := AcceptedIsPrinted(s);
      ParseUndoesPrint(t);
    }
    if t :| IsStamp(t) && Print(t) == s && InstantOf(t) == millis {
      ParseUndoesPrint(t);
    }
  }

  // ----- Printing an instant -----

  /** The stamp of `millis` as a clock `zone` away from UTC shows it, with milliseconds. */
  function StampOf(millis: nat, zone: Zone): Stamp
    requires millis / 1000 + ZoneSeconds(zone) >= -86400
  {
    StampAt(millis / 1000, millis % 1000, zone)
  }

  function StampAt(seconds: nat, m: nat, zone: Zone): Stamp
    requires seconds + ZoneSeconds(zone) >= -86400
  {
    Stamp(ClockOf(seconds + ZoneSeconds(zone)), Padded(m, 3), zone)
  }

  function ClockOf(local: int): Clock
    requires local >= -86400
  {
    var second := local % 86400;
    Clock(DateOf(local / 86400), 'T', second / 3600, second / 60 % 60, second % 60)
  }

  lemma ClockOfSeconds(local: int)
    requires -86400 <= local < 2932897 * 86400
    ensures IsClock(ClockOf(local)) && LocalSeconds(ClockOf(local)) == local
  {
    var second := local % 86400;
    assert second / 60 / 60 == second / 3600;
    FourDigitYears(local / 86400);
    DateOfNumber(local / 86400);
    FormulaCountsDays(DateOf(local / 86400));
  }

  lemma MillisecondFraction(m: nat)
    requires m < 1000
    ensures FractionMillis(Padded(m, 3)) == m
  {
    Thousand();
    PaddedReads(m, 3);
    Truncated(m, 0, 1000);
  }

  /** Every instant from 1970 on, at every offset within 23:59, survives printing and
      parsing, as long as its local year has four digits. */
  lemma InstantRoundTrip(millis: nat, zone: Zone)
    requires IsZone(zone)
    requires millis / 1000 + ZoneSeconds(zone) < 2932897 * 86400
    ensures IsStamp(StampOf(millis, zone))
    ensures ParseMillis(Print(StampOf(millis, zone))) == Some(millis)
  {
    hide ParseMillis, Print, StampAt, IsStamp;
    PartsRoundTrip(millis / 1000, millis % 1000, zone);
  }

  lemma PartsRoundTrip(seconds: nat, m: nat, zone: Zone)
    requires IsZone(zone) && m < 1000
    requires seconds + ZoneSeconds(zone) < 2932897 * 86400
    ensures IsStamp(StampAt(seconds, m, zone))
    ensures ParseMillis(Print(StampAt(seconds, m, zone))) == FromSigned(seconds * 1000 + m)
  {
    hide ParseMillis, Print;
    StampKeepsInstant(seconds, m, zone);
    ParseUndoesPrint(StampAt(seconds, m, zone));
  }

  lemma StampKeepsInstant(seconds: nat, m: nat, zone: Zone)
    requires IsZone(zone) && m < 1000
    requires seconds + ZoneSeconds(zone) < 2932897 * 86400
    ensures IsStamp(StampAt(seconds, m, zone)) && InstantOf(StampAt(seconds, m, zone)) == seconds * 1000 + m
  {
    ClockOfSeconds(seconds + ZoneSeconds(zone));
    MillisecondFraction(m);
    InstantFromParts(StampAt(seconds, m, zone), seconds, m);
  }

  lemma InstantFromParts(t: Stamp, seconds: int, m: int)
    requires IsStamp(t)
    requires LocalSeconds(t.clock) == seconds + ZoneSeconds(t.zone) && FractionMillis(t.fraction) == m
    ensures InstantOf(t) == seconds * 1000 + m
  {
  }
}
