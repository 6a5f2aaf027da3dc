/** Playback modes shared by the backend's command handling and the player
    pane's buttons (the same enumerations cross the GUI boundary by name). */
module PlayerModes {

  datatype ShuffleMode = NotEnabled | Enabled

  /** `NoRepeat` is the variant the system calls `None`. */
  datatype RepeatMode = NoRepeat | RepeatAll | RepeatOne
}
