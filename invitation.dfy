/** The wedding invitation page: the countdown to the ceremony, split into
    days, hours, minutes and seconds and shown as two-digit fields, and the
    page's email check. */
module Invitation {
  import EmailShape

  const MsPerSecond: nat := 1000
  const MsPerMinute: nat := 60 * MsPerSecond
  const MsPerHour: nat := 60 * MsPerMinute
  const MsPerDay: nat := 24 * MsPerHour

  /** The four countdown fields as numbers. */
  datatype Parts = Parts(days: nat, hours: nat, minutes: nat, seconds: nat)

  /** The floor divisions of a non-negative millisecond distance. */
  function Breakdown(distance: nat): (p: Parts)
    ensures p.hours < 24 && p.minutes < 60 && p.seconds < 60
    ensures p.days * MsPerDay + p.hours * MsPerHour + p.minutes * MsPerMinute
      + p.seconds * MsPerSecond + distance % MsPerSecond == distance
  {
    BreakdownSums(distance);
    Parts(distance / MsPerDay, (distance % MsPerDay) / MsPerHour,
          (distance % MsPerHour) / MsPerMinute, (distance % MsPerMinute) / MsPerSecond)
  }

  lemma BreakdownSums(d: nat)
    ensures (d % MsPerDay) / MsPerHour < 24
    ensures (d % MsPerHour) / MsPerMinute < 60
    ensures (d % MsPerMinute) / MsPerSecond < 60
    ensures d / MsPerDay * MsPerDay + (d % MsPerDay) / MsPerHour * MsPerHour
      + (d % MsPerHour) / MsPerMinute * MsPerMinute
      + (d % MsPerMinute) / MsPerSecond * MsPerSecond + d % MsPerSecond == d
  {
    var days, r1 := d / 86400000, d % 86400000;
    var hours, r2 := r1 / 3600000, r1 % 3600000;
    var minutes, r3 := r2 / 60000, r2 % 60000;
    var seconds, r4 := r3 / 1000, r3 % 1000;
    Nest(d, 3600000, days * 24 + hours, r2);
    Nest(d, 60000, (days * 24 + hours) * 60 + minutes, r3);
    Nest(d, 1000, ((days * 24 + hours) * 60 + minutes) * 60 + seconds, r4);
  }

  /** A remainder below the divisor is the remainder. */
  lemma Nest(d: nat, c: nat, q: nat, r: nat)
    requires 0 <= r < c && d == q * c + r
    ensures d % c == r && d / c == q
  {
    var q', r' := d / c, d % c;
    assert d == q' * c + r';
    if q > q' {
      assert (q - q') * c == r' - r;
      MulAtLeast(q - q', c);
    } else if q < q' {
      assert (q' - q) * c == r - r';
      MulAtLeast(q' - q, c);
    }
  }

  lemma MulAtLeast(k: int, c: int)
    requires k >= 1 && c >= 0
    ensures k * c >= c
  {
  }

  function Digit(n: nat): (c: char)
    requires n < 10
  {
    ('0' as int + n) as char
  }

  function DigitValue(c: char): nat
  {
    if '0' <= c <= '9' then c as int - '0' as int else 0
  }

  /** String(n) for a non-negative integer: its decimal digits, no leading
      zero. */
  function NatToString(n: nat): (s: string)
    ensures |s| >= 1
    ensures forall k :: 0 <= k < |s| ==> '0' <= s[k] <= '9'
    ensures |s| == 1 <==> n < 10
    ensures |s| > 1 ==> s[0] != '0'
  {
    if n < 10 then [Digit(n)] else NatToString(n / 10) + [Digit(n % 10)]
  }

  /** The number a string of decimal digits denotes. */
  function DecimalValue(s: string): nat
  {
    if |s| == 0 then 0 else DecimalValue(s[..|s| - 1]) * 10 + DigitValue(s[|s| - 1])
  }

  lemma {:induction false} NatToStringRoundTrip(n: nat)
    ensures DecimalValue(NatToString(n)) == n
  {
    if n >= 10 {
      NatToStringRoundTrip(n / 10);
      var s := NatToString(n);
      assert s[..|s| - 1] == NatToString(n / 10);
    }
  }

  lemma {:induction false} LeadingZeroAddsNothing(s: string)
    ensures DecimalValue("0" + s) == DecimalValue(s)
  {
    if |s| > 0 {
      LeadingZeroAddsNothing(s[..|s| - 1]);
      assert ("0" + s)[..|"0" + s| - 1] == "0" + s[..|s| - 1];
    }
  }

  /** String(n).padStart(2, '0'): at least two characters (exactly two
      below 100) that read back as n, with a '0' added in front exactly when
      n has one digit. */
  function Pad2(n: nat): (s: string)
    ensures |s| >= 2
    ensures n < 100 ==> |s| == 2
    ensures forall k :: 0 <= k < |s| ==> '0' <= s[k] <= '9'
    ensures DecimalValue(s) == n
    ensures s == "0" + NatToString(n) <==> n < 10
    ensures n >= 10 ==> s == NatToString(n)
  {
    NatToStringRoundTrip(n);
    LeadingZeroAddsNothing(NatToString(n));
    assert 10 <= n < 100 ==> NatToString(n / 10) == [Digit(n / 10)];
    var s := NatToString(n);
    if |s| < 2 then "0" + s else s
  }

  /** Every character is a decimal digit. */
  predicate AllDigits(s: string)
  {
    forall k :: 0 <= k < |s| ==> '0' <= s[k] <= '9'
  }

  /** The text of the four fields. */
  datatype Display = Display(days: string, hours: string, minutes: string, seconds: string)

  const Elapsed := Display("00", "00", "00", "00")

  /** The countdown shown for a distance in milliseconds: all zeros once the
      date is past; otherwise each field reads back as its part of the
      distance, and hours, minutes and seconds are two characters. */
  function Countdown(distance: int): (d: Display)
    ensures distance < 0 ==> d == Display("00", "00", "00", "00")
    ensures distance >= 0 ==>
      var p := Breakdown(distance);
      DecimalValue(d.days) == p.days && DecimalValue(d.hours) == p.hours
      && DecimalValue(d.minutes) == p.minutes && DecimalValue(d.seconds) == p.seconds
      && |d.days| >= 2 && |d.hours| == 2 && |d.minutes| == 2 && |d.seconds| == 2
    ensures AllDigits(d.days) && AllDigits(d.hours) && AllDigits(d.minutes) && AllDigits(d.seconds)
  {
    if distance < 0 then Elapsed
    else
      var p := Breakdown(distance);
      Display(Pad2(p.days), Pad2(p.hours), Pad2(p.minutes), Pad2(p.seconds))
  }

  /** The RSVP page's email check: the same shape pattern as the campus form. */
  function ValidateEmail(email: string): (ok: bool)
    ensures ok <==> EmailShape.MatchesPattern(email)
  {
    EmailShape.ValidEmailMatchesPattern(email);
    EmailShape.ValidEmail(email)
  }
}
