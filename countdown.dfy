/** The countdown shown on the upsell pages: a number of seconds left, decremented once per
    interval tick and never below zero, displayed as zero-padded `HH:MM:SS` (the emergency and
    emergency-d pages, whose `formatTime` is the same code) or `MM:SS` (the emergency2 page). */
module Countdown {
  import opened Strings

  /** Hours, minutes and seconds of a duration, as `formatTime` computes them. */
  datatype Clock = Clock(hours: nat, mins: nat, secs: nat)

  /** Minutes and seconds of a duration, minutes not wrapped into hours. */
  datatype MinSec = MinSec(mins: nat, secs: nat)

  /** `Math.floor(seconds / 3600)`, `Math.floor((seconds % 3600) / 60)` and `seconds % 60`. */
  function SplitHms(seconds: nat): (c: Clock)
    ensures c.hours * 3600 + c.mins * 60 + c.secs == seconds
    ensures c.mins < 60 && c.secs < 60
  {
    var rest := seconds % 3600;
    assert rest % 60 == seconds % 60 by {
      assert seconds == (seconds / 3600) * 3600 + rest;
      assert (seconds / 3600) * 3600 == ((seconds / 3600) * 60) * 60;
    }
    Clock(seconds / 3600, rest / 60, seconds % 60)
  }

  /** `Math.floor(seconds / 60)` and `seconds % 60`. */
  function SplitMs(seconds: nat): (t: MinSec)
    ensures t.mins * 60 + t.secs == seconds
    ensures t.secs < 60
  {
    MinSec(seconds / 60, seconds % 60)
  }

  /** `n.toString().padStart(2, "0")`: the decimal numeral of `n`, at least two digits long. */
  function Field(n: nat): (f: string)
    ensures IsDigits(f) && Value(f) == n
    ensures |f| >= 2
    ensures |f| == 2 <==> n < 100
  {
    var d := Decimal(n);
    var f := PadStart(d, 2, '0');
    if |d| >= 2 then
      f
    else
      assert f == ['0'] + d;
      LeadingZeroValue(d);
      f
  }

  /** From 100 on no padding is added: the field is the plain decimal numeral, with no
      leading zero. */
  lemma FieldFromHundred(n: nat)
    requires n >= 100
    ensures Field(n) == Decimal(n) && Field(n)[0] != '0'
  {
    var d := Decimal(n);
    assert |d| > 2;
    assert PadStart(d, 2, '0') == d;
  }

  /** Below 100 the field is exactly the tens digit followed by the units digit. */
  lemma FieldBelowHundred(n: nat)
    requires n < 100
    ensures Field(n) == [DigitChar(n / 10), DigitChar(n % 10)]
  {
    TwoDigitNumeral(Field(n), n);
  }

  /** A two-digit string denoting `n` is the tens digit of `n` followed by its units digit. */
  lemma TwoDigitNumeral(f: string, n: nat)
    requires IsDigits(f) && |f| == 2 && Value(f) == n
    ensures n < 100 && f == [DigitChar(n / 10), DigitChar(n % 10)]
  {
    TwoDigitValue(f);
    var a, b := DigitValue(f[0]), DigitValue(f[1]);
    DigitsOfTwoDigitNumber(a, b, n);
    DigitCharOfValue(f[0]);
    DigitCharOfValue(f[1]);
    assert f == [f[0], f[1]];
  }

  lemma TwoDigitValue(f: string)
    requires IsDigits(f) && |f| == 2
    ensures Value(f) == DigitValue(f[0]) * 10 + DigitValue(f[1])
  {
    var high := f[..1];
    assert high[..0] == [];
    assert Value(high) == DigitValue(f[0]);
    assert f[..|f| - 1] == high;
  }

  lemma DigitCharOfValue(c: char)
    requires IsDigit(c)
    ensures DigitChar(DigitValue(c)) == c
  {
  }

  lemma DigitsOfTwoDigitNumber(a: nat, b: nat, n: nat)
    requires a < 10 && b < 10 && a * 10 + b == n
    ensures a == n / 10 && b == n % 10
  {
  }

  /** `formatTime` of the emergency and emergency-d pages. */
  function FormatHms(seconds: nat): string {
    var c := SplitHms(seconds);
    Field(c.hours) + ":" + Field(c.mins) + ":" + Field(c.secs)
  }

  /** `formatTime` of the emergency2 page. */
  function FormatMs(seconds: nat): string {
    var t := SplitMs(seconds);
    Field(t.mins) + ":" + Field(t.secs)
  }

  /** Where the parts of `h:m:s` sit when the last two parts are two characters long. */
  lemma ThreeFieldsLayout(h: string, m: string, s: string)
    requires |m| == 2 && |s| == 2
    ensures var r := h + ":" + m + ":" + s;
      |r| == |h| + 6 && r[|r| - 6] == ':' && r[|r| - 3] == ':' &&
      r[..|r| - 6] == h && r[|r| - 5..|r| - 3] == m && r[|r| - 2..] == s
  {
    var r := h + ":" + m + ":" + s;
    assert r[..|r| - 6] == h;
    assert r[|r| - 5..|r| - 3] == m;
    assert r[|r| - 2..] == s;
  }

  /** `r` is three `:`-separated digit fields, the last two exactly two digits and below 60,
      which read as hours, minutes and seconds make up `seconds`. */
  predicate ReadsAsHms(r: string, seconds: nat) {
    |r| >= 8 && r[|r| - 6] == ':' && r[|r| - 3] == ':' &&
    IsDigits(r[..|r| - 6]) && IsDigits(r[|r| - 5..|r| - 3]) && IsDigits(r[|r| - 2..]) &&
    Value(r[|r| - 5..|r| - 3]) < 60 && Value(r[|r| - 2..]) < 60 &&
    Value(r[..|r| - 6]) * 3600 + Value(r[|r| - 5..|r| - 3]) * 60 + Value(r[|r| - 2..]) == seconds
  }

  /** Reading the `HH:MM:SS` display back gives the duration it was made from. */
  lemma FormatHmsReadsBack(seconds: nat)
    ensures ReadsAsHms(FormatHms(seconds), seconds)
  {
    var c := SplitHms(seconds);
    HmsFieldsRead(Field(c.hours), Field(c.mins), Field(c.secs), c, seconds);
  }

  /** Three digit fields whose values are the parts of a clock read back as its duration. */
  lemma HmsFieldsRead(h: string, m: string, s: string, c: Clock, seconds: nat)
    requires IsDigits(h) && IsDigits(m) && IsDigits(s) && |h| >= 2 && |m| == 2 && |s| == 2
    requires Value(h) == c.hours && Value(m) == c.mins && Value(s) == c.secs
    requires c.hours * 3600 + c.mins * 60 + c.secs == seconds && c.mins < 60 && c.secs < 60
    ensures ReadsAsHms(h + ":" + m + ":" + s, seconds)
  {
    ThreeFieldsLayout(h, m, s);
  }

  /** The `HH:MM:SS` display is exactly eight characters, with the separators at positions 2
      and 5, precisely for durations under 100 hours. */
  lemma FormatHmsWidth(seconds: nat)
    ensures |FormatHms(seconds)| == 8 <==> seconds < 360000
    ensures seconds < 360000 ==> FormatHms(seconds)[2] == ':' && FormatHms(seconds)[5] == ':'
  {
    var c := SplitHms(seconds);
    ThreeFieldsLayout(Field(c.hours), Field(c.mins), Field(c.secs));
    assert c.hours < 100 <==> seconds < 360000;
  }

  /** `r` is two `:`-separated digit fields, the second exactly two digits and below 60, which
      read as minutes and seconds make up `seconds`. */
  predicate ReadsAsMs(r: string, seconds: nat) {
    |r| >= 5 && r[|r| - 3] == ':' &&
    IsDigits(r[..|r| - 3]) && IsDigits(r[|r| - 2..]) && Value(r[|r| - 2..]) < 60 &&
    Value(r[..|r| - 3]) * 60 + Value(r[|r| - 2..]) == seconds
  }

  /** Reading the `MM:SS` display back gives the duration it was made from; the minutes field
      is not wrapped into hours. */
  lemma FormatMsReadsBack(seconds: nat)
    ensures ReadsAsMs(FormatMs(seconds), seconds)
  {
    var t := SplitMs(seconds);
    MsFieldsRead(Field(t.mins), Field(t.secs), t, seconds);
  }

  /** Two digit fields whose values are the parts of a minutes-and-seconds pair read back as
      its duration. */
  lemma MsFieldsRead(m: string, s: string, t: MinSec, seconds: nat)
    requires IsDigits(m) && IsDigits(s) && |m| >= 2 && |s| == 2
    requires Value(m) == t.mins && Value(s) == t.secs
    requires t.mins * 60 + t.secs == seconds && t.secs < 60
    ensures ReadsAsMs(m + ":" + s, seconds)
  {
    var r := m + ":" + s;
    assert r[..|r| - 3] == m;
    assert r[|r| - 2..] == s;
  }

  /** The `MM:SS` display is exactly five characters, with the separator at position 2,
      precisely for durations under 100 minutes. */
  lemma FormatMsWidth(seconds: nat)
    ensures |FormatMs(seconds)| == 5 <==> seconds < 6000
    ensures seconds < 6000 ==> FormatMs(seconds)[2] == ':'
  {
    var t := SplitMs(seconds);
    assert t.mins < 100 <==> seconds < 6000;
  }

  /** Seconds left after `elapsed` ticks from `initial`: the countdown stops at zero. */
  function Remaining(initial: nat, elapsed: nat): nat {
    if elapsed <= initial then initial - elapsed else 0
  }

  /** The interval callback's updater `prev > 0 ? prev - 1 : 0`. */
  function Tick(prev: nat): (next: nat)
    ensures next == Remaining(prev, 1)
  {
    if prev > 0 then prev - 1 else 0
  }

  /** One more tick takes the countdown from `elapsed` to `elapsed + 1` ticks: ticking step by
      step never goes below zero and agrees with counting the ticks. */
  lemma TickAdvancesRemaining(initial: nat, elapsed: nat)
    ensures Tick(Remaining(initial, elapsed)) == Remaining(initial, elapsed + 1)
  {
  }

  /** The `timeLeft` state of a page and the number of ticks it has seen. */
  class Timer {
    var timeLeft: nat
    ghost var initial: nat
    ghost var elapsed: nat

    /** Ticking from `initial` has left exactly `Remaining(initial, elapsed)` seconds. */
    ghost predicate Valid()
      reads this
    {
      timeLeft == Remaining(initial, elapsed)
    }

    /** `useState(start)` */
    constructor (start: nat)
      ensures Valid()
      ensures timeLeft == start && initial == start && elapsed == 0
    {
      timeLeft := start;
      initial := start;
      elapsed := 0;
    }

    /** One firing of the one-second interval: `setTimeLeft((prev) => prev > 0 ? prev - 1 : 0)`. */
    method OnInterval()
      requires Valid()
      modifies this
      ensures Valid()
      ensures timeLeft == Tick(old(timeLeft)) && initial == old(initial) && elapsed == old(elapsed) + 1
    {
      timeLeft := Tick(timeLeft);
      elapsed := elapsed + 1;
    }
  }
}
