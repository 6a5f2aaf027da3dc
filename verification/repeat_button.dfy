/** The repeat button's cycle through the repeat modes. */
module RepeatButton {
  import opened PlayerModes

  /** None leads to RepeatAll, RepeatAll to RepeatOne, RepeatOne back to
      None. */
  function NextRepeatMode(mode: RepeatMode): (next: RepeatMode)
    ensures next != mode
    ensures mode == NoRepeat <==> next == RepeatAll
    ensures mode == RepeatAll <==> next == RepeatOne
    ensures mode == RepeatOne <==> next == NoRepeat
  {
    match mode
    case NoRepeat => RepeatAll
    case RepeatAll => RepeatOne
    case RepeatOne => NoRepeat
  }

  /** Three presses bring the button back to where it started. */
  lemma ThreePressesCycle(mode: RepeatMode)
    ensures NextRepeatMode(NextRepeatMode(NextRepeatMode(mode))) == mode
  {
  }

  /** The button shows as selected exactly when some repeat is on. */
  function Selected(mode: RepeatMode): (b: bool)
    ensures b <==> mode != NoRepeat
  {
    mode != NoRepeat
  }

  /** Pressing the button turns repeat on from None, keeps it on from
      RepeatAll, and turns it off from RepeatOne. */
  lemma SelectedAfterPress(mode: RepeatMode)
    ensures Selected(NextRepeatMode(mode)) <==> mode != RepeatOne
    ensures Selected(mode) && Selected(NextRepeatMode(mode)) <==> mode == RepeatAll
  {
  }
}
