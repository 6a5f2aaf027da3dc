/** The playback manager's command handling: a state machine over the play
    queue, the current and next playback ids, the playback state, the stream
    timing and the shuffle/repeat modes. Messages to the audio thread, events
    to the GUI and the background open of a file stream are its outputs, kept
    in order as a trace of effects. */
module PlaybackManager {
  import opened Wrappers
  import opened PlayerModes
  import Q = PlayQueue

  datatype PlaybackState = Playing | Paused | Stopped

  datatype StartPlaybackState = StartPlaying | StartPaused

  /** The decoder's time base; only carried, never computed with. */
  datatype TimeBase = TimeBase(numer: nat, denom: nat)

  datatype StreamTiming = StreamTiming(timeBase: TimeBase, nFrames: nat, pos: nat)

  /** Messages to the audio thread. */
  datatype ProcessMsg =
    | Stop
    | Pause
    | Resume
    | SeekTo(offset: nat)
    | StartPlayback(playbackId: nat, startState: StartPlaybackState)
    | SetGain(volume: real)

  /** Events to the GUI. Stream metadata is reduced to whether it is present. */
  datatype PlayerEvent =
    | PlaybackFileChange(file: Option<string>)
    | PlaybackStateChange(state: PlaybackState)
    | StreamTimingChange(timing: Option<StreamTiming>)
    | StreamMetadataChange(present: bool)

  datatype Effect =
    | ToProcess(msg: ProcessMsg)
    | ToGui(event: PlayerEvent)
      /** The background thread that opens `path` and answers with
          OpenFileStream or OpenFileStreamError tagged with `playbackId`. */
    | OpenStream(playbackId: nat, path: string)

  /** What the background open reports about the stream it opened. */
  datatype OpenedStream = OpenedStream(nFrames: Option<nat>, timeBase: Option<TimeBase>)

  datatype Command =
    | StartPlayback(filePaths: seq<string>, startIndex: nat)
    | Pause
    | Stop
    | Progress(playbackId: nat, pos: nat)
    | PlaybackEnded(playbackId: nat)
    | Resume
    | SetVolume(volume: real)
    | SeekTo(offset: nat)
    | OpenFileStreamError(playbackId: nat, path: string)
    | OpenFileStream(playbackId: nat, path: string, stream: OpenedStream)
    | SkipForward
    | SkipBack
    | SetShuffle(shuffleMode: ShuffleMode)
    | SetRepeat(repeatMode: RepeatMode)

  datatype Manager = Manager(
    queue: Option<Q.Queue<string>>,
    currentPlaybackId: Option<nat>,
    nextPlaybackId: nat,
    playbackState: PlaybackState,
    streamTiming: Option<StreamTiming>,
    shuffleMode: ShuffleMode,
    repeatMode: RepeatMode)

  datatype Transition = Transition(manager: Manager, effects: seq<Effect>)

  /** The manager as constructed. */
  function Init(): (m: Manager)
    ensures Valid(m)
  {
    Manager(None, None, 0, PlaybackState.Stopped, None, NotEnabled, NoRepeat)
  }

  /** The manager invariant: the queue is well formed and shuffled exactly
      when shuffle is enabled, and a current playback id was handed out
      before and belongs to a playback that is not stopped. */
  ghost predicate Valid(m: Manager) {
    && (m.queue.Some? ==> Q.Valid(m.queue.value) && m.queue.value.isShuffled == (m.shuffleMode == Enabled))
    && (m.currentPlaybackId.Some? ==>
          m.currentPlaybackId.value < m.nextPlaybackId && m.playbackState != PlaybackState.Stopped)
  }

  /** The GUI's view of one field: replay the events in `effects` that
      `observe` recognises, starting from `x`. */
  function Mirror<X>(x: X, effects: seq<Effect>, observe: Effect -> Option<X>): X
  {
    if |effects| == 0 then x
    else Mirror(observe(effects[0]).GetOr(x), effects[1..], observe)
  }

  /** Every event `observe` recognises carries a value different from the
      GUI's view just before it. */
  ghost predicate OnlyChanges<X>(x: X, effects: seq<Effect>, observe: Effect -> Option<X>) {
    |effects| == 0 ||
    ((observe(effects[0]).Some? ==> observe(effects[0]).value != x) &&
     OnlyChanges(observe(effects[0]).GetOr(x), effects[1..], observe))
  }

  lemma {:induction false} MirrorConcat<X>(x: X, a: seq<Effect>, b: seq<Effect>, observe: Effect -> Option<X>)
    ensures Mirror(x, a + b, observe) == Mirror(Mirror(x, a, observe), b, observe)
    ensures OnlyChanges(x, a + b, observe) <==>
              OnlyChanges(x, a, observe) && OnlyChanges(Mirror(x, a, observe), b, observe)
    decreases |a|
  {
    if |a| == 0 {
      assert a + b == b;
    } else {
      assert (a + b)[1..] == a[1..] + b;
      MirrorConcat(observe(a[0]).GetOr(x), a[1..], b, observe);
    }
  }

  function ObserveState(e: Effect): Option<PlaybackState> {
    if e.ToGui? && e.event.PlaybackStateChange? then Some(e.event.state) else None
  }

  function ObserveTiming(e: Effect): Option<Option<StreamTiming>> {
    if e.ToGui? && e.event.StreamTimingChange? then Some(e.event.timing) else None
  }

  /** The GUI, replaying the trace, sees the manager's playback state and
      stream timing, and is never told about a change that is not one. */
  ghost predicate GuiInSync(m: Manager, t: Transition) {
    && Mirror(m.playbackState, t.effects, ObserveState) == t.manager.playbackState
    && OnlyChanges(m.playbackState, t.effects, ObserveState)
    && Mirror(m.streamTiming, t.effects, ObserveTiming) == t.manager.streamTiming
    && OnlyChanges(m.streamTiming, t.effects, ObserveTiming)
  }

  /** Appends effects that neither state nor timing observers recognise. */
  lemma {:induction false} QuietSuffix(m: Manager, t: Transition, extra: seq<Effect>)
    requires GuiInSync(m, t)
    requires forall k :: 0 <= k < |extra| ==> ObserveState(extra[k]).None? && ObserveTiming(extra[k]).None?
    ensures GuiInSync(m, Transition(t.manager, t.effects + extra))
  {
    QuietEffects(t.manager.playbackState, extra, ObserveState);
    QuietEffects(t.manager.streamTiming, extra, ObserveTiming);
    MirrorConcat(m.playbackState, t.effects, extra, ObserveState);
    MirrorConcat(m.streamTiming, t.effects, extra, ObserveTiming);
  }

  lemma {:induction false} QuietEffects<X>(x: X, extra: seq<Effect>, observe: Effect -> Option<X>)
    requires forall k :: 0 <= k < |extra| ==> observe(extra[k]).None?
    ensures Mirror(x, extra, observe) == x && OnlyChanges(x, extra, observe)
    decreases |extra|
  {
    if |extra| > 0 {
      QuietEffects(x, extra[1..], observe);
    }
  }

  /** Chains two transitions' effects: if each keeps the GUI in sync, so does
      their composition. */
  lemma {:induction false} Compose(m: Manager, t1: Transition, t2: Transition)
    requires GuiInSync(m, t1) && GuiInSync(t1.manager, t2)
    ensures GuiInSync(m, Transition(t2.manager, t1.effects + t2.effects))
  {
    MirrorConcat(m.playbackState, t1.effects, t2.effects, ObserveState);
    MirrorConcat(m.streamTiming, t1.effects, t2.effects, ObserveTiming);
  }

  /** Stores the playback state, telling the GUI only when it changed. */
  function SetPlaybackState(m: Manager, s: PlaybackState): (t: Transition)
    ensures t.manager == m.(playbackState := s)
    ensures t.effects == [] <==> s == m.playbackState
    ensures GuiInSync(m, t)
  {
    if m.playbackState != s then
      Transition(m.(playbackState := s), [ToGui(PlaybackStateChange(s))])
    else
      Transition(m, [])
  }

  /** Stores the stream timing, telling the GUI only when it changed. */
  function SetStreamTiming(m: Manager, timing: Option<StreamTiming>): (t: Transition)
    ensures t.manager == m.(streamTiming := timing)
    ensures t.effects == [] <==> timing == m.streamTiming
    ensures GuiInSync(m, t)
  {
    if m.streamTiming != timing then
      Transition(m.(streamTiming := timing), [ToGui(StreamTimingChange(timing))])
    else
      Transition(m, [])
  }

  /** Stops the audio thread's stream and starts opening `path` under a fresh
      playback id. */
  function StartPlaybackOf(m: Manager, path: string): (t: Transition)
    ensures t.manager.currentPlaybackId == Some(m.nextPlaybackId)
    ensures t.manager.nextPlaybackId == m.nextPlaybackId + 1
    ensures t.manager.streamTiming.None? && t.manager.playbackState == Playing
    ensures t.manager.queue == m.queue && t.manager.shuffleMode == m.shuffleMode
    ensures t.manager.repeatMode == m.repeatMode
    ensures |t.effects| > 0 && t.effects[0] == ToProcess(ProcessMsg.Stop)
    ensures t.effects[|t.effects| - 1] == OpenStream(m.nextPlaybackId, path)
    ensures GuiInSync(m, t)
  {
    var timing := SetStreamTiming(m, None);
    var state := SetPlaybackState(timing.manager, Playing);
    var id := m.nextPlaybackId;
    var started := state.manager.(nextPlaybackId := id + 1, currentPlaybackId := Some(id));
    Compose(m, timing, state);
    var inner := timing.effects + state.effects;
    var before := [ToProcess(ProcessMsg.Stop)];
    var after := [ToGui(StreamMetadataChange(false)), ToGui(PlaybackFileChange(Some(path))), OpenStream(id, path)];
    QuietPrefixAndSuffix(m, Transition(started, inner), before, after);
    Transition(started, before + inner + after)
  }

  /** Surrounds a transition's effects with effects neither observer
      recognises. */
  lemma {:induction false} QuietPrefixAndSuffix(m: Manager, t: Transition, before: seq<Effect>, after: seq<Effect>)
    requires GuiInSync(m, t)
    requires forall k :: 0 <= k < |before| ==> ObserveState(before[k]).None? && ObserveTiming(before[k]).None?
    requires forall k :: 0 <= k < |after| ==> ObserveState(after[k]).None? && ObserveTiming(after[k]).None?
    ensures GuiInSync(m, Transition(t.manager, before + t.effects + after))
  {
    QuietEffects(m.playbackState, before, ObserveState);
    QuietEffects(m.streamTiming, before, ObserveTiming);
    Compose(m, Transition(m, before), t);
    QuietSuffix(m, Transition(t.manager, before + t.effects), after);
  }

  /** Ends the current playback: no current id, audio stopped, the GUI told
      there is no file, no timing, no metadata and the Stopped state. */
  function StopPlayback(m: Manager): (t: Transition)
    ensures t.manager.currentPlaybackId.None?
    ensures t.manager.streamTiming.None? && t.manager.playbackState == PlaybackState.Stopped
    ensures t.manager.queue == m.queue && t.manager.nextPlaybackId == m.nextPlaybackId
    ensures t.manager.shuffleMode == m.shuffleMode && t.manager.repeatMode == m.repeatMode
    ensures |t.effects| > 0 && t.effects[0] == ToProcess(ProcessMsg.Stop)
    ensures GuiInSync(m, t)
  {
    var cleared := m.(currentPlaybackId := None);
    var timing := SetStreamTiming(cleared, None);
    var state := SetPlaybackState(timing.manager, PlaybackState.Stopped);
    Compose(cleared, timing, state);
    var inner := timing.effects + state.effects;
    var before := [ToProcess(ProcessMsg.Stop), ToGui(PlaybackFileChange(None))];
    var after := [ToGui(StreamMetadataChange(false))];
    QuietPrefixAndSuffix(cleared, Transition(state.manager, inner), before, after);
    Transition(state.manager, before + inner + after)
  }

  /** Moves on after the current playback. RepeatOne restarts the current
      element in place; otherwise the queue advances (wrapping under
      RepeatAll), and when it has nothing more playback stops and the queue
      is dropped. */
  function PlayNext(m: Manager): (t: Transition)
    requires Valid(m)
    ensures Valid(t.manager)
    ensures GuiInSync(m, t)
    ensures m.repeatMode == RepeatOne && m.queue.Some? ==>
              t == StartPlaybackOf(m, Q.Current(m.queue.value))
    ensures m.repeatMode == RepeatOne && m.queue.None? ==> t == Transition(m, [])
    ensures m.repeatMode != RepeatOne && m.queue.Some? ==>
              var mv := Q.GoNext(m.queue.value, if m.repeatMode == RepeatAll then Q.RepeatAll else Q.Default);
              t == if mv.item.Some? then StartPlaybackOf(m.(queue := Some(mv.queue)), mv.item.value)
                   else StopPlayback(m).(manager := StopPlayback(m).manager.(queue := None))
    ensures m.repeatMode != RepeatOne && (m.queue.None? || Q.GoNext(m.queue.value, Q.Default).item.None?)
              && m.repeatMode != RepeatAll ==>
              t.manager.queue.None? && t.manager.currentPlaybackId.None? &&
              t.manager.playbackState == PlaybackState.Stopped
  {
    if m.repeatMode == RepeatOne then
      if m.queue.Some? then StartPlaybackOf(m, Q.Current(m.queue.value)) else Transition(m, [])
    else
      var next :=
        if m.queue.None? then None
        else Some(Q.GoNext(m.queue.value, if m.repeatMode == RepeatAll then Q.RepeatAll else Q.Default));
      if next.Some? && next.value.item.Some? then
        StartPlaybackOf(m.(queue := Some(next.value.queue)), next.value.item.value)
      else
        var stopped := StopPlayback(m);
        stopped.(manager := stopped.manager.(queue := None))
  }

  /** Changing the shuffle mode converts the queue, keeping its current
      element; choosing the mode already set changes nothing. `perm` is the
      random shuffle used when shuffling. */
  function SetShuffleMode(m: Manager, mode: ShuffleMode, perm: seq<nat>): (t: Transition)
    requires Valid(m)
    requires mode == Enabled && m.shuffleMode != Enabled && m.queue.Some? ==>
               Q.IsPermutationOf(perm, |m.queue.value.elements| - 1)
    ensures Valid(t.manager) && t.effects == []
    ensures mode == m.shuffleMode ==> t.manager == m
    ensures t.manager.shuffleMode == mode
    ensures t.manager.queue.Some? <==> m.queue.Some?
    ensures m.queue.Some? ==> Q.Current(t.manager.queue.value) == Q.Current(m.queue.value)
    ensures mode != m.shuffleMode && m.queue.Some? ==>
              t.manager.queue.value == if mode == Enabled then Q.ToShuffled(m.queue.value, perm)
                                       else Q.ToUnshuffled(m.queue.value)
  {
    if mode == m.shuffleMode then Transition(m, [])
    else
      var queue :=
        if m.queue.None? then None
        else if mode == Enabled then Some(Q.ToShuffled(m.queue.value, perm))
        else Some(Q.ToUnshuffled(m.queue.value));
      Transition(m.(queue := queue, shuffleMode := mode), [])
  }

  /** Builds a new queue from `filePaths` (shuffled when shuffle is enabled)
      and starts its current element. An out-of-range `startIndex` drops the
      queue and leaves any playback running. */
  function StartPlaybackCommand(m: Manager, filePaths: seq<string>, startIndex: nat, perm: seq<nat>): (t: Transition)
    requires Valid(m)
    requires m.shuffleMode == Enabled && |filePaths| > 0 ==> Q.IsPermutationOf(perm, |filePaths| - 1)
    ensures Valid(t.manager) && GuiInSync(m, t)
    ensures startIndex >= |filePaths| ==> t == Transition(m.(queue := None), [])
    ensures startIndex < |filePaths| ==>
              && t.manager.queue.Some?
              && t.manager.queue.value.elements == filePaths
              && |t.effects| > 0
              && t.manager.currentPlaybackId == Some(m.nextPlaybackId)
              && t.effects[|t.effects| - 1] == OpenStream(m.nextPlaybackId, filePaths[startIndex])
  {
    var queue := if m.shuffleMode == Enabled then Q.FromIterShuffled(filePaths, startIndex, perm)
                 else Q.FromIter(filePaths, startIndex);
    var m1 := m.(queue := queue);
    if queue.Some? then StartPlaybackOf(m1, Q.Current(queue.value)) else Transition(m1, [])
  }

  /** The current stream finished; a report about any other playback is
      ignored. */
  function PlaybackEndedCommand(m: Manager, playbackId: nat): (t: Transition)
    requires Valid(m)
    ensures Valid(t.manager) && GuiInSync(m, t)
    ensures m.currentPlaybackId != Some(playbackId) ==> t == Transition(m, [])
    ensures m.currentPlaybackId == Some(playbackId) ==> t == PlayNext(m)
  {
    if m.currentPlaybackId != Some(playbackId) then Transition(m, []) else PlayNext(m)
  }

  /** The audio thread reports its position; only the current playback's
      reports update the timing, and only when timing is known. */
  function ProgressCommand(m: Manager, playbackId: nat, pos: nat): (t: Transition)
    requires Valid(m)
    ensures Valid(t.manager) && GuiInSync(m, t)
    ensures m.currentPlaybackId != Some(playbackId) || m.streamTiming.None? ==> t == Transition(m, [])
    ensures m.currentPlaybackId == Some(playbackId) && m.streamTiming.Some? ==>
              t.manager == m.(streamTiming := Some(m.streamTiming.value.(pos := pos)))
  {
    if m.currentPlaybackId != Some(playbackId) then Transition(m, [])
    else if m.streamTiming.Some? then SetStreamTiming(m, Some(m.streamTiming.value.(pos := pos)))
    else Transition(m, [])
  }

  /** The background open succeeded. For the current playback the timing is
      set when the stream knows its length and time base, the metadata is
      announced and the stream is handed to the audio thread, paused if the
      manager is paused; a stale stream is dropped. The manager invariant
      guarantees the state is not Stopped here, which the source asserts. */
  function OpenFileStreamCommand(m: Manager, playbackId: nat, stream: OpenedStream): (t: Transition)
    requires Valid(m)
    ensures Valid(t.manager) && GuiInSync(m, t)
    ensures Some(playbackId) != m.currentPlaybackId ==> t == Transition(m, [])
    ensures Some(playbackId) == m.currentPlaybackId ==>
              && |t.effects| > 0
              && t.effects[|t.effects| - 1] ==
                   ToProcess(ProcessMsg.StartPlayback(playbackId,
                     if m.playbackState == Paused then StartPaused else StartPlaying))
              && t.manager.streamTiming ==
                   if stream.nFrames.Some? && stream.timeBase.Some?
                   then Some(StreamTiming(stream.timeBase.value, stream.nFrames.value, 0))
                   else m.streamTiming
  {
    if Some(playbackId) != m.currentPlaybackId then Transition(m, [])
    else
      var timing :=
        if stream.nFrames.Some? && stream.timeBase.Some?
        then SetStreamTiming(m, Some(StreamTiming(stream.timeBase.value, stream.nFrames.value, 0)))
        else Transition(m, []);
      assert timing.manager.playbackState != PlaybackState.Stopped;
      var startState := if timing.manager.playbackState == Paused then StartPaused else StartPlaying;
      var after := [ToGui(StreamMetadataChange(true)), ToProcess(ProcessMsg.StartPlayback(playbackId, startState))];
      QuietSuffix(m, timing, after);
      Transition(timing.manager, timing.effects + after)
  }

  /** The background open failed: the current playback moves on to the next
      element; a stale failure is ignored. */
  function OpenFileStreamErrorCommand(m: Manager, playbackId: nat): (t: Transition)
    requires Valid(m)
    ensures Valid(t.manager) && GuiInSync(m, t)
    ensures Some(playbackId) != m.currentPlaybackId ==> t == Transition(m, [])
    ensures Some(playbackId) == m.currentPlaybackId ==> t == PlayNext(m)
  {
    if Some(playbackId) != m.currentPlaybackId then Transition(m, []) else PlayNext(m)
  }

  /** Seeks within the stream when the offset lies inside it and moves on to
      the next element otherwise; without timing nothing happens. */
  function SeekToCommand(m: Manager, offset: nat): (t: Transition)
    requires Valid(m)
    ensures Valid(t.manager) && GuiInSync(m, t)
    ensures m.streamTiming.None? ==> t == Transition(m, [])
    ensures m.streamTiming.Some? && offset < m.streamTiming.value.nFrames ==>
              t == Transition(m, [ToProcess(ProcessMsg.SeekTo(offset))])
    ensures m.streamTiming.Some? && offset >= m.streamTiming.value.nFrames ==> t == PlayNext(m)
  {
    if m.streamTiming.None? then Transition(m, [])
    else if offset < m.streamTiming.value.nFrames then Transition(m, [ToProcess(ProcessMsg.SeekTo(offset))])
    else PlayNext(m)
  }

  /** Skip back: early in a stream with a previous element, step the queue
      back and start that element; otherwise restart the stream if it has
      advanced; otherwise nothing. `earlyInStream` stands for the time-base
      comparison of the position with three seconds, which is only made when
      the timing is known. */
  function SkipBackCommand(m: Manager, earlyInStream: bool): (t: Transition)
    requires Valid(m)
    ensures Valid(t.manager) && GuiInSync(m, t)
    ensures var hasPrevious := m.queue.Some? && Q.HasPrevious(m.queue.value);
            var early := m.streamTiming.Some? && earlyInStream;
            && (early && hasPrevious ==>
                  var mv := Q.GoPreviousClamped(m.queue.value);
                  mv.queue.index == m.queue.value.index - 1 &&
                  t == StartPlaybackOf(m.(queue := Some(mv.queue)), mv.item.value))
            && (!(early && hasPrevious) && m.streamTiming.Some? && m.streamTiming.value.pos > 0 ==>
                  t == Transition(m, [ToProcess(ProcessMsg.SeekTo(0))]))
            && (!(early && hasPrevious) && (m.streamTiming.None? || m.streamTiming.value.pos == 0) ==>
                  t == Transition(m, []))
  {
    var hasPrevious := m.queue.Some? && Q.HasPrevious(m.queue.value);
    var early := m.streamTiming.Some? && earlyInStream;
    if early && hasPrevious then
      var mv := Q.GoPreviousClamped(m.queue.value);
      StartPlaybackOf(m.(queue := Some(mv.queue)), mv.item.value)
    else if (if m.streamTiming.Some? then m.streamTiming.value.pos else 0) > 0 then
      Transition(m, [ToProcess(ProcessMsg.SeekTo(0))])
    else
      Transition(m, [])
  }

  /** The random shuffle a command needs is a permutation of the right size. */
  ghost predicate ShuffleFits(m: Manager, cmd: Command, perm: seq<nat>) {
    match cmd
    case StartPlayback(filePaths, _) =>
      m.shuffleMode == Enabled && |filePaths| > 0 ==> Q.IsPermutationOf(perm, |filePaths| - 1)
    case SetShuffle(mode) =>
      mode == Enabled && m.shuffleMode != Enabled && m.queue.Some? && |m.queue.value.elements| > 0 ==>
        Q.IsPermutationOf(perm, |m.queue.value.elements| - 1)
    case _ => true
  }

  /** One iteration of the command loop. `perm` is the random shuffle and
      `earlyInStream` the outcome of the skip-back time test. Every command
      keeps the manager invariant and the GUI's mirror of the playback state
      and timing exact. */
  function Step(m: Manager, cmd: Command, perm: seq<nat>, earlyInStream: bool): (t: Transition)
    requires Valid(m) && ShuffleFits(m, cmd, perm)
    ensures Valid(t.manager) && GuiInSync(m, t)
  {
    match cmd
    case StartPlayback(filePaths, startIndex) => StartPlaybackCommand(m, filePaths, startIndex, perm)
    case Pause =>
      var s := SetPlaybackState(m, Paused);
      QuietPrefixAndSuffix(m, s, [ToProcess(ProcessMsg.Pause)], []);
      Transition(s.manager, [ToProcess(ProcessMsg.Pause)] + s.effects)
    case Stop => StopPlayback(m)
    case Resume =>
      var s := SetPlaybackState(m, Playing);
      QuietPrefixAndSuffix(m, s, [ToProcess(ProcessMsg.Resume)], []);
      Transition(s.manager, [ToProcess(ProcessMsg.Resume)] + s.effects)
    case Progress(playbackId, pos) => ProgressCommand(m, playbackId, pos)
    case PlaybackEnded(playbackId) => PlaybackEndedCommand(m, playbackId)
    case SetVolume(volume) => Transition(m, [ToProcess(SetGain(volume))])
    case SeekTo(offset) => SeekToCommand(m, offset)
    case OpenFileStream(playbackId, _, stream) => OpenFileStreamCommand(m, playbackId, stream)
    case OpenFileStreamError(playbackId, _) => OpenFileStreamErrorCommand(m, playbackId)
    case SkipForward => PlayNext(m)
    case SkipBack => SkipBackCommand(m, earlyInStream)
    case SetShuffle(mode) => SetShuffleMode(m, mode, perm)
    case SetRepeat(mode) => Transition(m.(repeatMode := mode), [])
  }

  /** Reports tagged with anything but the current playback id change
      nothing and produce no effects. */
  lemma StaleReportsIgnored(m: Manager, cmd: Command, perm: seq<nat>, earlyInStream: bool)
    requires Valid(m)
    requires cmd.Progress? || cmd.PlaybackEnded? || cmd.OpenFileStream? || cmd.OpenFileStreamError?
    requires m.currentPlaybackId != Some(cmd.playbackId)
    ensures Step(m, cmd, perm, earlyInStream) == Transition(m, [])
  {
  }

  /** Every playback id the manager hands out is fresh: starting a playback
      uses the id counter and bumps it, so an id is never reused. */
  lemma PlaybackIdsAreFresh(m: Manager, cmd: Command, perm: seq<nat>, earlyInStream: bool)
    requires Valid(m) && ShuffleFits(m, cmd, perm)
    ensures var t := Step(m, cmd, perm, earlyInStream);
            && t.manager.nextPlaybackId >= m.nextPlaybackId
            && (t.manager.currentPlaybackId.Some? && t.manager.currentPlaybackId != m.currentPlaybackId ==>
                  t.manager.currentPlaybackId.value == m.nextPlaybackId &&
                  t.manager.nextPlaybackId == m.nextPlaybackId + 1)
  {
  }
}
