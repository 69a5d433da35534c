/** The countdown of the emergency-d (downsell) page: 12 hours, shown as `HH:MM:SS`.
    The page's state is a `Timer` built from `InitialTimeLeft`; `Timer.Valid` then keeps
    `timeLeft == Remaining(InitialTimeLeft, elapsed)`, which is what the lemmas below display. */
module EmergencyDownsellPage {
  import opened Countdown

  /** `useState(12 * 60 * 60)` */
  const InitialTimeLeft: nat := 12 * 60 * 60

  /** The page opens showing `12:00:00`. */
  lemma InitialDisplay()
    ensures FormatHms(InitialTimeLeft) == "12:00:00"
  {
    assert SplitHms(InitialTimeLeft) == Clock(12, 0, 0);
    FieldBelowHundred(12);
    FieldBelowHundred(0);
  }

  /** However many ticks have fired, the display stays eight characters wide with its
      separators at positions 2 and 5. */
  lemma DisplayKeepsWidth(elapsed: nat)
    ensures var r := FormatHms(Remaining(InitialTimeLeft, elapsed));
      |r| == 8 && r[2] == ':' && r[5] == ':'
  {
    FormatHmsWidth(Remaining(InitialTimeLeft, elapsed));
  }

  /** Once 12 hours of ticks have fired the display rests at `00:00:00`. */
  lemma ExpiredDisplay(elapsed: nat)
    requires elapsed >= InitialTimeLeft
    ensures FormatHms(Remaining(InitialTimeLeft, elapsed)) == "00:00:00"
  {
    assert Remaining(InitialTimeLeft, elapsed) == 0;
    assert SplitHms(0) == Clock(0, 0, 0);
    FieldBelowHundred(0);
    assert FormatHms(0) == Field(0) + ":" + Field(0) + ":" + Field(0);
  }
}
