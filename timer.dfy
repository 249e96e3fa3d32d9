/**
 * The study/break timer as a state machine on values. `State` is a snapshot of
 * the page's mutable state: the four module variables (`currentMode`,
 * `isRunning`, `timeRemaining`, `timerInterval`), the two display fields, the
 * edit lock (`contentEditable`), the transition countdown text, and the
 * browser's live intervals. Each source operation is one function from the
 * old snapshot to the new one; the class in module Engine is proved to
 * follow them.
 *
 * Browser intervals are modelled by handles drawn from `nextHandle`:
 * `setInterval` takes a fresh handle, `clearInterval(h)` removes `h` from the
 * live set, and a callback can only fire for a live handle.
 */
module Timer {
  import opened Wrappers
  import opened TimeText

  datatype Mode = Study | Break

  function Opposite(m: Mode): Mode
  {
    if m == Study then Break else Study
  }

  /** The built-in session lengths: 25 minutes of study, 5 minutes of break. */
  function DefaultDuration(m: Mode): nat
  {
    if m == Study then 25 * 60 else 5 * 60
  }

  /** The labels of the transition countdown, one per second. */
  const CountdownLabels: seq<string> := ["3", "2", "1", "Start!"]

  type Handle = nat

  datatype State = State(
    mode: Mode,                    // currentMode
    isRunning: bool,               // isRunning
    timeRemaining: int,            // timeRemaining
    timerInterval: Option<Handle>, // timerInterval (None is null)
    display: Display,              // the #minutes and #seconds text
    editable: bool,                // contentEditable of both fields
    liveTicks: set<Handle>,        // main-tick intervals the browser still runs
    countdowns: map<Handle, nat>,  // live countdown intervals, each with its `index`
    countdownText: string,         // #countdownText
    nextHandle: Handle)            // the next handle setInterval returns

  /**
   * What holds in every reachable state: the remaining time is never negative,
   * a session is running exactly when one main tick is live and that tick is
   * the one `timerInterval` names, a running session has time left, locked
   * fields, and shows its remaining time, and every countdown index is in range.
   */
  ghost predicate Inv(s: State)
  {
    && s.timeRemaining >= 0
    && (s.isRunning <==> s.liveTicks != {})
    && (s.isRunning ==> s.timerInterval.Some? && s.liveTicks == {s.timerInterval.value})
    && (s.isRunning ==> s.timeRemaining > 0 && !s.editable && s.display == WriteTime(s.timeRemaining))
    && (s.timerInterval.Some? ==> s.timerInterval.value < s.nextHandle)
    && (forall c :: c in s.countdowns ==> c < s.nextHandle && s.countdowns[c] < |CountdownLabels|)
  }

  /** The page after `init()`: study mode, 25:00 shown, not running, nothing scheduled. */
  function Init(): State
  {
    State(Study, false, 0, None, WriteTime(25 * 60), true, {}, map[], "", 1)
  }

  /** `clearInterval(handle)`; clearing `null` does nothing. */
  function ClearInterval(live: set<Handle>, handle: Option<Handle>): set<Handle>
  {
    if handle.Some? then live - {handle.value} else live
  }

  // ---------------------------------------------------------------------------
  // Operations
  // ---------------------------------------------------------------------------

  /** `switchTab(mode)`: selects the mode; when not running, shows that mode's default. */
  function SwitchTab(s: State, m: Mode): State
  {
    var selected := s.(mode := m);
    if !s.isRunning then selected.(display := WriteTime(DefaultDuration(m))) else selected
  }

  /** `updateDisplay()`: when not running, adopts the displayed time and re-renders it. */
  function UpdateDisplay(s: State): State
  {
    if !s.isRunning then
      var t := ReadEditableTime(s.display);
      s.(timeRemaining := t, display := WriteTime(t))
    else s
  }

  /** `startTimer()`: a fresh start takes the displayed time (or the mode's default when it
      reads as zero), a resume keeps `timeRemaining`; then any old tick is cleared and a new
      one scheduled. */
  function StartTimer(s: State): State
    requires s.timeRemaining >= 0
  {
    var t: nat :=
      if s.timeRemaining == 0 then
        var read := ReadEditableTime(s.display);
        if read > 0 then read else DefaultDuration(s.mode)
      else s.timeRemaining;
    var h := s.nextHandle;
    s.(timeRemaining := t, isRunning := true, editable := false,
       liveTicks := ClearInterval(s.liveTicks, s.timerInterval) + {h},
       display := WriteTime(t), timerInterval := Some(h), nextHandle := h + 1)
  }

  /** `pauseTimer()`: stops and unlocks; `timerInterval` keeps its (now cleared) handle. */
  function PauseTimer(s: State): State
  {
    s.(isRunning := false, liveTicks := ClearInterval(s.liveTicks, s.timerInterval), editable := true)
  }

  /** `toggleTimer()`, the start/pause button. */
  function ToggleTimer(s: State): State
    requires s.timeRemaining >= 0
  {
    if s.isRunning then PauseTimer(s) else StartTimer(s)
  }

  /** `showCountdown()`: shows the first label and schedules a countdown interval at index 0. */
  function ShowCountdown(s: State): State
  {
    var c := s.nextHandle;
    s.(countdowns := s.countdowns[c := 0], countdownText := CountdownLabels[0], nextHandle := c + 1)
  }

  /** `switchMode()`: stops, flips the mode and starts the transition countdown. */
  function SwitchMode(s: State): State
  {
    ShowCountdown(s.(isRunning := false, mode := Opposite(s.mode)))
  }

  /** The main tick's callback: decrement, show the time if not negative, and at zero or
      below clear the interval and switch mode. */
  function Tick(s: State): State
  {
    var t := s.timeRemaining - 1;
    var shown := if t >= 0 then s.(timeRemaining := t, display := WriteTime(t)) else s.(timeRemaining := t);
    if t <= 0 then
      SwitchMode(shown.(liveTicks := ClearInterval(shown.liveTicks, shown.timerInterval), timerInterval := None))
    else shown
  }

  /** The countdown interval's callback: advance to the next label, or after the last one
      stop this countdown, load the mode's built-in default and start the timer. */
  function CountdownStep(s: State, c: Handle): State
    requires c in s.countdowns
  {
    var index := s.countdowns[c] + 1;
    if index < |CountdownLabels| then
      s.(countdowns := s.countdowns[c := index], countdownText := CountdownLabels[index])
    else
      var t := DefaultDuration(s.mode);
      StartTimer(s.(countdowns := s.countdowns - {c}, timeRemaining := t, display := WriteTime(t)))
  }

  /** `onEditBlur()`: the fields are normalised in place. */
  function OnEditBlur(s: State): State
  {
    s.(display := NormaliseFields(s.display))
  }

  /** The user types into the fields; the browser allows it only while they are editable. */
  function EditFields(s: State, d: Display): State
    requires s.editable
  {
    s.(display := d)
  }

  // ---------------------------------------------------------------------------
  // Events the page reacts to, and runs of them
  // ---------------------------------------------------------------------------

  datatype Event =
    | TabClicked(mode: Mode)
    | StartClicked
    | TickFired(handle: Handle)
    | CountdownFired(handle: Handle)
    | Typed(text: Display)
    | Blurred

  /** An interval callback fires only while its interval is live; typing needs editable fields. */
  predicate Enabled(s: State, e: Event)
  {
    match e
    case TickFired(h) => h in s.liveTicks
    case CountdownFired(c) => c in s.countdowns
    case Typed(_) => s.editable
    case _ => true
  }

  function Step(s: State, e: Event): State
    requires s.timeRemaining >= 0 && Enabled(s, e)
  {
    match e
    case TabClicked(m) => SwitchTab(s, m)
    case StartClicked => ToggleTimer(s)
    case TickFired(_) => Tick(s)
    case CountdownFired(c) => CountdownStep(s, c)
    case Typed(d) => EditFields(s, d)
    case Blurred => OnEditBlur(s)
  }

  // ---------------------------------------------------------------------------
  // One operation at a time
  // ---------------------------------------------------------------------------

  lemma InitSatisfiesInv()
    ensures Inv(Init())
    ensures Init().display == Display("25", "00")
  {
    DefaultDisplays();
  }

  /** After `startTimer` the session runs with time left and exactly one live tick, the fresh
      one; a fresh start (`timeRemaining == 0`) takes the displayed time if positive and the
      mode's default otherwise, a resume keeps the remaining time. */
  lemma StartTimerSpec(s: State)
    requires Inv(s)
    ensures var r := StartTimer(s);
      && Inv(r) && r.isRunning && !r.editable && r.timeRemaining > 0
      && r.timeRemaining == (if s.timeRemaining != 0 then s.timeRemaining
                             else if ReadEditableTime(s.display) > 0 then ReadEditableTime(s.display)
                             else DefaultDuration(s.mode))
      && s.nextHandle !in s.liveTicks && r.timerInterval == Some(s.nextHandle) && r.liveTicks == {s.nextHandle}
      && r.display == WriteTime(r.timeRemaining)
      && r.mode == s.mode && r.countdowns == s.countdowns && r.countdownText == s.countdownText
  {
    assert ClearInterval(s.liveTicks, s.timerInterval) == {};
  }

  /** Starting twice in a row: the first tick is cancelled and the session is the same. */
  lemma StartTwice(s: State)
    requires Inv(s)
    ensures var once := StartTimer(s); var twice := StartTimer(once);
      && twice.timeRemaining == once.timeRemaining && twice.display == once.display
      && twice.isRunning && twice.mode == once.mode
      && twice.liveTicks == {twice.timerInterval.value} && once.timerInterval.value !in twice.liveTicks
  {
    StartTimerSpec(s);
    StartTimerSpec(StartTimer(s));
  }

  /** `pauseTimer` stops the session, cancels its tick and unlocks the fields; remaining time,
      mode and display stay. */
  lemma PauseTimerSpec(s: State)
    requires Inv(s)
    ensures var r := PauseTimer(s);
      && Inv(r) && !r.isRunning && r.editable && r.liveTicks == {}
      && r.timeRemaining == s.timeRemaining && r.mode == s.mode && r.display == s.display
      && r.timerInterval == s.timerInterval && r.countdowns == s.countdowns
  {
  }

  /** Pause then start resumes from the frozen remaining time instead of restarting. */
  lemma PauseThenStartResumes(s: State)
    requires Inv(s) && s.isRunning
    ensures var r := ToggleTimer(ToggleTimer(s));
      && r.isRunning && r.timeRemaining == s.timeRemaining && r.display == s.display && r.mode == s.mode
      && r.liveTicks == {r.timerInterval.value}
  {
    PauseTimerSpec(s);
    StartTimerSpec(PauseTimer(s));
  }

  /** A tick takes exactly one second off. While time is left the session keeps running and
      nothing but the time and its display changes; at zero it shows 00:00, cancels its tick,
      stops with the fields still locked, flips the mode and starts a countdown at "3". */
  lemma TickSpec(s: State)
    requires Inv(s) && s.isRunning
    ensures var r := Tick(s);
      && Inv(r) && r.timeRemaining == s.timeRemaining - 1 >= 0
      && (r.timeRemaining > 0 ==>
            r == s.(timeRemaining := r.timeRemaining, display := WriteTime(r.timeRemaining)))
      && (r.timeRemaining == 0 ==>
            && !r.isRunning && !r.editable && r.liveTicks == {} && r.timerInterval == None
            && r.mode == Opposite(s.mode) && r.display == WriteTime(0)
            && s.nextHandle !in s.countdowns && r.countdowns == s.countdowns[s.nextHandle := 0]
            && r.countdownText == CountdownLabels[0])
  {
  }

  /** `switchTab` selects the mode and never touches the remaining time or the running flag;
      when not running it shows 25:00 or 05:00, when running it leaves the display alone. */
  lemma SwitchTabSpec(s: State, m: Mode)
    requires Inv(s)
    ensures var r := SwitchTab(s, m);
      && Inv(r) && r.mode == m && r.timeRemaining == s.timeRemaining && r.isRunning == s.isRunning
      && r.liveTicks == s.liveTicks && r.countdowns == s.countdowns
      && r.display == (if s.isRunning then s.display
                       else if m == Study then Display("25", "00") else Display("05", "00"))
  {
    DefaultDisplays();
  }

  /** A tab switched while running redirects the coming mode flip: the session ends in the
      mode opposite to the selected tab, not to the one it started in. */
  lemma SwitchTabWhileRunningRedirectsFlip(s: State, m: Mode)
    requires Inv(s) && s.isRunning
    ensures (SwitchTabSpec(s, m); Ticks(SwitchTab(s, m), s.timeRemaining).mode == Opposite(m))
  {
    SwitchTabSpec(s, m);
  }

  /** A countdown step shows the next label; the step after "Start!" ends this countdown,
      loads the mode's built-in default (whatever the fields say) and starts the timer. */
  lemma CountdownStepSpec(s: State, c: Handle)
    requires Inv(s) && c in s.countdowns
    ensures var index := s.countdowns[c] + 1; var r := CountdownStep(s, c);
      && Inv(r)
      && (index < |CountdownLabels| ==>
            r == s.(countdowns := s.countdowns[c := index], countdownText := CountdownLabels[index]))
      && (index == |CountdownLabels| ==>
            && c !in r.countdowns && r.isRunning && r.mode == s.mode
            && r.timeRemaining == DefaultDuration(s.mode) && r.display == WriteTime(DefaultDuration(s.mode))
            && r.liveTicks == {r.timerInterval.value})
  {
    var index := s.countdowns[c] + 1;
    if index == |CountdownLabels| {
      var t := DefaultDuration(s.mode);
      var loaded := s.(countdowns := s.countdowns - {c}, timeRemaining := t, display := WriteTime(t));
      assert Inv(loaded);
      StartTimerSpec(loaded);
    }
  }

  /** `onEditBlur` keeps the invariant and the total the fields denote; while running (fields
      showing the remaining time) it changes nothing. */
  lemma OnEditBlurSpec(s: State)
    requires Inv(s)
    ensures var r := OnEditBlur(s);
      && Inv(r) && ReadEditableTime(r.display) == ReadEditableTime(s.display)
      && (s.isRunning ==> r == s)
  {
    NormalisePreservesTotal(s.display);
    if s.isRunning {
      NormaliseFixesWriteTime(s.timeRemaining);
    }
  }

  /** `updateDisplay` when not running adopts the fields' total as the remaining time and shows
      it normalised; when running it does nothing. */
  lemma UpdateDisplaySpec(s: State)
    requires Inv(s)
    ensures var r := UpdateDisplay(s);
      && Inv(r)
      && (!s.isRunning ==>
            && r.timeRemaining == ReadEditableTime(s.display) && r.display == NormaliseFields(s.display)
            && ReadEditableTime(r.display) == r.timeRemaining)
      && (s.isRunning ==> r == s)
  {
    TrimmedReadAgrees(s.display);
    ReadWriteRoundTrip(ReadEditableTime(s.display));
  }

  /** Typing is possible only with unlocked fields, so never while running. */
  lemma EditFieldsSpec(s: State, d: Display)
    requires Inv(s) && s.editable
    ensures var r := EditFields(s, d);
      Inv(r) && !r.isRunning && r.display == d && r.timeRemaining == s.timeRemaining
  {
  }

  lemma StepPreservesInv(s: State, e: Event)
    requires Inv(s) && Enabled(s, e)
    ensures Inv(Step(s, e))
  {
    match e
    case TabClicked(m) => SwitchTabSpec(s, m);
    case StartClicked =>
      if s.isRunning { PauseTimerSpec(s); } else { StartTimerSpec(s); }
    case TickFired(_) => TickSpec(s);
    case CountdownFired(c) => CountdownStepSpec(s, c);
    case Typed(d) => EditFieldsSpec(s, d);
    case Blurred => OnEditBlurSpec(s);
  }

  // ---------------------------------------------------------------------------
  // Runs
  // ---------------------------------------------------------------------------

  /** The state after the events `es`, or `None` when one of them could not have happened. */
  function Run(s: State, es: seq<Event>): (r: Option<State>)
    requires Inv(s)
    ensures r.Some? ==> Inv(r.value)
    decreases |es|
  {
    if es == [] then Some(s)
    else if !Enabled(s, es[0]) then None
    else
      StepPreservesInv(s, es[0]);
      Run(Step(s, es[0]), es[1..])
  }

  /** In every state the page can reach, at most one main tick is live, the remaining time
      is not negative, and the fields are locked while a session runs. */
  lemma ReachableSafety(es: seq<Event>)
    ensures (InitSatisfiesInv();
      var r := Run(Init(), es);
      r.Some? ==>
        && |r.value.liveTicks| <= 1 && r.value.timeRemaining >= 0
        && (r.value.isRunning ==> !r.value.editable && r.value.timeRemaining > 0))
  {
    InitSatisfiesInv();
    var r := Run(Init(), es);
    if r.Some? && r.value.isRunning {
      assert r.value.liveTicks == {r.value.timerInterval.value};
    }
  }

  /** `k` ticks of a running session: before the last second it is still running with `k`
      seconds fewer; after exactly `timeRemaining` ticks it has stopped at 00:00 in the
      opposite mode. */
  function Ticks(s: State, k: nat): (r: State)
    requires Inv(s) && k <= s.timeRemaining && (k > 0 ==> s.isRunning)
    ensures Inv(r)
    ensures k == 0 ==> r == s
    ensures 0 < k < s.timeRemaining ==> r.isRunning && r.timeRemaining == s.timeRemaining - k && r.mode == s.mode
    ensures 0 < k == s.timeRemaining ==>
      !r.isRunning && r.timeRemaining == 0 && r.mode == Opposite(s.mode) && r.display == WriteTime(0)
    decreases k
  {
    if k == 0 then s
    else
      TickSpec(s);
      Ticks(Tick(s), k - 1)
  }

  /** The first press of Start on the fresh page begins a 25-minute study session. */
  lemma FirstStart()
    ensures var started := StartTimer(Init());
      Inv(started) && started.isRunning && started.mode == Study && started.timeRemaining == 1500
  {
    InitSatisfiesInv();
    ReadWriteRoundTrip(25 * 60);
    StartTimerSpec(Init());
  }

  /** A whole study session from the start page: 1500 ticks later the page is in break mode
      and stopped. */
  lemma StudySessionScenario()
    ensures (FirstStart();
      var ended := Ticks(StartTimer(Init()), 1500);
      ended.mode == Break && !ended.isRunning && ended.timeRemaining == 0)
  {
    FirstStart();
  }

  /** Pausing after 10 ticks freezes 1490 seconds, and starting again resumes from there. */
  lemma PauseResumeScenario()
    ensures (FirstStart();
      var paused := PauseTimer(Ticks(StartTimer(Init()), 10));
      PauseTimerSpec(Ticks(StartTimer(Init()), 10));
      paused.timeRemaining == 1490 && !paused.isRunning && StartTimer(paused).timeRemaining == 1490)
  {
    FirstStart();
    var ticked := Ticks(StartTimer(Init()), 10);
    PauseTimerSpec(ticked);
    StartTimerSpec(PauseTimer(ticked));
  }

  /** The whole transition: a session's last tick shows "3", the next three countdown steps
      show "2", "1", "Start!", and the fourth starts the opposite mode's session at its
      built-in default length, regardless of what the fields held. */
  lemma TransitionScenario(s: State)
    requires Inv(s) && s.isRunning && s.timeRemaining == 1
    ensures (TickSpec(s);
      var c := s.nextHandle;
      var s0 := Tick(s);
      CountdownStepSpec(s0, c);
      var s1 := CountdownStep(s0, c);
      CountdownStepSpec(s1, c);
      var s2 := CountdownStep(s1, c);
      CountdownStepSpec(s2, c);
      var s3 := CountdownStep(s2, c);
      var s4 := CountdownStep(s3, c);
      && [s0.countdownText, s1.countdownText, s2.countdownText, s3.countdownText] == CountdownLabels
      && c !in s4.countdowns && s4.isRunning && s4.mode == Opposite(s.mode)
      && s4.timeRemaining == DefaultDuration(Opposite(s.mode)))
  {
    TickSpec(s);
    var c := s.nextHandle;
    var s0 := Tick(s);
    CountdownStepSpec(s0, c);
    var s1 := CountdownStep(s0, c);
    CountdownStepSpec(s1, c);
    var s2 := CountdownStep(s1, c);
    CountdownStepSpec(s2, c);
    var s3 := CountdownStep(s2, c);
    CountdownStepSpec(s3, c);
  }

  /** Editing the fields before the first start sets the session length (the mode's default
      when they read as zero); editing them while paused mid-session is discarded on resume. */
  lemma EditThenStart(s: State, d: Display)
    requires Inv(s) && s.editable
    ensures var r := StartTimer(EditFields(s, d));
      && (s.timeRemaining == 0 ==>
            r.timeRemaining == if ReadEditableTime(d) > 0 then ReadEditableTime(d) else DefaultDuration(s.mode))
      && (s.timeRemaining > 0 ==>
            r.timeRemaining == s.timeRemaining && r.display == WriteTime(s.timeRemaining))
  {
    EditFieldsSpec(s, d);
    StartTimerSpec(EditFields(s, d));
  }
}
