/** The countdown of the emergency2 page: 15 minutes, shown as `MM:SS`.
    The page's state is a `Timer` built from `InitialTimeLeft`; `Timer.Valid` then keeps
    `timeLeft == Remaining(InitialTimeLeft, elapsed)`, which is what the lemmas below display. */
module Emergency2Page {
  import opened Countdown

  /** `useState(15 * 60)` */
  const InitialTimeLeft: nat := 15 * 60

  /** The page opens showing `15:00`. */
  lemma InitialDisplay()
    ensures FormatMs(InitialTimeLeft) == "15:00"
  {
    assert SplitMs(InitialTimeLeft) == MinSec(15, 0);
    FieldBelowHundred(15);
    FieldBelowHundred(0);
  }

  /** However many ticks have fired, the display stays five characters wide with its
      separator at position 2. */
  lemma DisplayKeepsWidth(elapsed: nat)
    ensures var r := FormatMs(Remaining(InitialTimeLeft, elapsed));
      |r| == 5 && r[2] == ':'
  {
    FormatMsWidth(Remaining(InitialTimeLeft, elapsed));
  }

  /** Once 15 minutes of ticks have fired the display rests at `00:00`. */
  lemma ExpiredDisplay(elapsed: nat)
    requires elapsed >= InitialTimeLeft
    ensures FormatMs(Remaining(InitialTimeLeft, elapsed)) == "00:00"
  {
    assert Remaining(InitialTimeLeft, elapsed) == 0;
    assert SplitMs(0) == MinSec(0, 0);
    FieldBelowHundred(0);
    assert FormatMs(0) == Field(0) + ":" + Field(0);
  }
}
