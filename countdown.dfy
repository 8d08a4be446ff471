/** The arena's "time until reset" display: a non-negative number of
    milliseconds split into hours, minutes and seconds with floored integer
    division, each part printed in decimal and left-padded with '0' to two
    characters, joined by ':'. The clock read and the once-a-second refresh
    are outside the model: the millisecond difference is the input. */
module Countdown {

  datatype Option<T> = None | Some(value: T)

  const MsPerSecond: nat := 1000
  const MsPerMinute: nat := 60 * MsPerSecond
  const MsPerHour: nat := 60 * MsPerMinute
  const MsPerDay: nat := 24 * MsPerHour

  /** A reading of the countdown in whole hours, minutes and seconds. */
  datatype Clock = Clock(hours: nat, minutes: nat, seconds: nat)

  function TotalSeconds(c: Clock): nat {
    c.hours * 3600 + c.minutes * 60 + c.seconds
  }

  /** Splits a millisecond difference the way the arena does: floor of
      diff / 1 h, then the rest of the hour in minutes, then the rest of the
      minute in seconds. The ensures determine the reading uniquely. */
  function Split(diff: nat): (c: Clock)
    ensures c.minutes < 60 && c.seconds < 60
    ensures TotalSeconds(c) == diff / MsPerSecond
    ensures diff <= MsPerDay ==> c.hours <= 24
    ensures diff < MsPerDay ==> c.hours < 24
  {
    var q, r := diff / 1000, diff % 1000;
    var h, mq := q / 3600, q % 3600;
    var m, sq := mq / 60, mq % 60;
    DivModUnique(diff, 3600000, h, mq * 1000 + r);
    DivModUnique(mq * 1000 + r, 60000, m, sq * 1000 + r);
    DivModUnique(diff, 60000, q / 60, sq * 1000 + r);
    DivModUnique(sq * 1000 + r, 1000, sq, r);
    Clock(diff / MsPerHour, (diff % MsPerHour) / MsPerMinute, (diff % MsPerMinute) / MsPerSecond)
  }

  /** Quotient and remainder are the only pair that rebuilds a. */
  lemma DivModUnique(a: nat, b: nat, q: nat, r: nat)
    requires b > 0 && r < b && a == b * q + r
    ensures a / b == q && a % b == r
  {
    var q', r' := a / b, a % b;
    assert a == b * q' + r';
    if q' < q {
      var d := q - q';
      assert b * q == b * q' + b * d;
      MulAtLeast(b, d);
      assert false;
    } else if q' > q {
      var d := q' - q;
      assert b * q' == b * q + b * d;
      MulAtLeast(b, d);
      assert false;
    }
  }

  lemma MulAtLeast(b: nat, d: nat)
    requires d >= 1
    ensures b * d >= b
  {
    assert b * d == b * (d - 1) + b;
  }

  // ---------------------------------------------------------------------
  // Decimal digits

  predicate IsDigit(c: char) {
    '0' <= c <= '9'
  }

  predicate AllDigits(s: string) {
    forall i :: 0 <= i < |s| ==> IsDigit(s[i])
  }

  function DigitValue(c: char): (d: nat)
    requires IsDigit(c)
    ensures d < 10
  {
    c as int - '0' as int
  }

  function DigitChar(d: nat): (c: char)
    requires d < 10
    ensures IsDigit(c) && DigitValue(c) == d
  {
    ('0' as int + d) as char
  }

  /** The decimal text of n with no leading zero, as JavaScript's
      Number.prototype.toString prints a non-negative integer. */
  function Decimal(n: nat): (s: string)
    ensures |s| >= 1 && AllDigits(s)
  {
    if n < 10 then [DigitChar(n)] else Decimal(n / 10) + [DigitChar(n % 10)]
  }

  /** The number a string of decimal digits denotes (most significant first). */
  function ValueOf(s: string): nat
    requires AllDigits(s)
  {
    if s == [] then 0 else ValueOf(s[..|s| - 1]) * 10 + DigitValue(s[|s| - 1])
  }

  /** Reads a non-empty run of decimal digits; anything else is refused. */
  function ParseDigits(s: string): Option<nat> {
    if |s| > 0 && AllDigits(s) then Some(ValueOf(s)) else None
  }

  /** String.prototype.padStart with a one-character filler. */
  function PadStart(s: string, width: nat, fill: char): string
    decreases width - |s|
  {
    if |s| >= width then s else PadStart([fill] + s, width, fill)
  }

  /** One field of the display: n.toString().padStart(2, '0'). */
  function Field(n: nat): string {
    PadStart(Decimal(n), 2, '0')
  }

  /** The text of one reading: the three fields joined by ':'. */
  function Show(c: Clock): string {
    Field(c.hours) + ":" + Field(c.minutes) + ":" + Field(c.seconds)
  }

  /** The countdown text for a millisecond difference. */
  function Format(diff: nat): string {
    Show(Split(diff))
  }

  /** Reads a countdown text back: the last six characters are ":MM:SS",
      everything before them is the hours field. */
  function ParseClock(s: string): Option<Clock> {
    if |s| < 8 || s[|s| - 6] != ':' || s[|s| - 3] != ':' then None
    else
      match (ParseDigits(s[..|s| - 6]), ParseDigits(s[|s| - 5..|s| - 3]), ParseDigits(s[|s| - 2..]))
      case (Some(h), Some(m), Some(sec)) => Some(Clock(h, m, sec))
      case _ => None
  }

  // ---------------------------------------------------------------------
  // Properties

  /** Decimal text reads back as the number it was printed from, and it
      has one digit exactly below 10 and at most two exactly below 100. */
  lemma {:induction false} DecimalRoundTrip(n: nat)
    ensures ValueOf(Decimal(n)) == n
    ensures |Decimal(n)| == 1 <==> n < 10
    ensures |Decimal(n)| <= 2 <==> n < 100
  {
    if n >= 10 {
      DecimalRoundTrip(n / 10);
      var s := Decimal(n);
      assert s[..|s| - 1] == Decimal(n / 10);
    }
  }

  /** A leading '0' does not change the value of a digit string. */
  lemma {:induction false} LeadingZero(s: string)
    requires AllDigits(s)
    ensures AllDigits(['0'] + s) && ValueOf(['0'] + s) == ValueOf(s)
    decreases |s|
  {
    if s != [] {
      LeadingZero(s[..|s| - 1]);
      assert (['0'] + s)[..|s|] == ['0'] + s[..|s| - 1];
    }
  }

  /** Every field is at least two digits, padded with '0' exactly when the
      number is below 10, exactly two characters when it is below 100, and
      reads back as the number. */
  lemma FieldRoundTrip(n: nat)
    ensures |Field(n)| >= 2 && AllDigits(Field(n))
    ensures ParseDigits(Field(n)) == Some(n)
    ensures |Field(n)| == 2 <==> n < 100
    ensures Field(n)[0] == '0' <==> n < 10
  {
    DecimalRoundTrip(n);
    var d := Decimal(n);
    if n < 10 {
      assert |d| == 1;
      assert PadStart(d, 2, '0') == PadStart(['0'] + d, 2, '0') == ['0'] + d;
      LeadingZero(d);
    } else {
      assert Field(n) == d;
      LeadingNonZero(n);
    }
  }

  /** Decimal text of a number of two or more digits does not start with '0'. */
  lemma {:induction false} LeadingNonZero(n: nat)
    requires n >= 10
    ensures Decimal(n)[0] != '0'
  {
    if n / 10 >= 10 {
      LeadingNonZero(n / 10);
    }
  }

  /** For every difference the display is three ':'-separated fields that
      read back as the split reading; it is exactly HH:MM:SS (eight
      characters) exactly when fewer than 100 hours remain. */
  lemma FormatRoundTrip(diff: nat)
    ensures ParseClock(Format(diff)) == Some(Split(diff))
    ensures |Format(diff)| == 8 <==> diff < 100 * MsPerHour
  {
    var c := Split(diff);
    FieldRoundTrip(c.hours);
    FieldRoundTrip(c.minutes);
    FieldRoundTrip(c.seconds);
    var h, m, sec := Field(c.hours), Field(c.minutes), Field(c.seconds);
    var f := Format(diff);
    assert |m| == 2 && |sec| == 2;
    assert f == h + ":" + m + ":" + sec;
    assert f[..|f| - 6] == h;
    assert f[|f| - 5..|f| - 3] == m;
    assert f[|f| - 2..] == sec;
  }

  /** Every field of a difference of at most one day is exactly two digits. */
  lemma WithinADay(diff: nat)
    requires diff <= MsPerDay
    ensures |Format(diff)| == 8
    ensures forall i :: i in {0, 1, 3, 4, 6, 7} ==> IsDigit(Format(diff)[i])
    ensures Format(diff)[2] == ':' && Format(diff)[5] == ':'
  {
    FormatRoundTrip(diff);
    var c := Split(diff);
    FieldRoundTrip(c.hours);
    FieldRoundTrip(c.minutes);
    FieldRoundTrip(c.seconds);
  }

  /** The display shows 00:00:00 during the last second before midnight. */
  lemma LastSecondReading(diff: nat)
    requires diff < MsPerSecond
    ensures Format(diff) == "00:00:00"
  {
    assert Split(diff) == Clock(0, 0, 0) by {
      DivModUnique(diff, MsPerSecond, 0, diff);
    }
    FieldZero();
    var r := Show(Clock(0, 0, 0));
    assert |r| == 8;
    assert forall i :: 0 <= i < 8 ==> r[i] == "00:00:00"[i];
  }

  lemma FieldZero()
    ensures Field(0) == "00"
  {
    assert Decimal(0) == "0";
    assert ['0'] + "0" == "00";
  }

  /** One millisecond short of a day the display shows 23:59:59; a full
      day ahead (the reading taken at midnight itself) it shows 24:00:00. */
  lemma FullDayReadings()
    ensures Format(MsPerDay - 1) == "23:59:59"
    ensures Format(MsPerDay) == "24:00:00"
  {
    assert Split(MsPerDay - 1) == Clock(23, 59, 59);
    assert Split(MsPerDay) == Clock(24, 0, 0);
    assert Decimal(0) == "0";
    assert Decimal(23) == Decimal(2) + [DigitChar(3)];
    assert Decimal(59) == Decimal(5) + [DigitChar(9)];
    assert Decimal(24) == Decimal(2) + [DigitChar(4)];
  }
}
