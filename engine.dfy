/**
 * The timer page's mutable state and its handlers as one object. The fields are
 * the script's module variables and the parts of the page it writes; every
 * method is proved to change them exactly as the matching function of module
 * Timer says, and every handler keeps `Timer.Inv`. `SwitchMode` and
 * `ShowCountdown` are internal steps of `Tick`, run while the invariant is
 * briefly broken, so they neither require nor ensure it.
 */
module Engine {
  import opened Wrappers
  import opened TimeText
  import Timer

  class Pomodoro {
    var currentMode: Timer.Mode
    var isRunning: bool
    var timeRemaining: int
    var timerInterval: Option<Timer.Handle>
    var display: Display
    var editable: bool
    var liveTicks: set<Timer.Handle>
    var countdowns: map<Timer.Handle, nat>
    var countdownText: string
    var nextHandle: Timer.Handle

    /** The snapshot of all fields. */
    function State(): Timer.State
      reads this
    {
      Timer.State(currentMode, isRunning, timeRemaining, timerInterval, display, editable,
                  liveTicks, countdowns, countdownText, nextHandle)
    }

    ghost predicate Valid()
      reads this
    {
      Timer.Inv(State())
    }

    /** `init()`: study mode with 25:00 shown, not running. */
    constructor ()
      ensures Valid() && State() == Timer.Init()
    {
      currentMode := Timer.Study;
      isRunning := false;
      timeRemaining := 0;
      timerInterval := None;
      display := WriteTime(25 * 60);
      editable := true;
      liveTicks := {};
      countdowns := map[];
      countdownText := "";
      nextHandle := 1;
      Timer.InitSatisfiesInv();
    }

    /** `switchTab(mode)`. */
    method SwitchTab(mode: Timer.Mode)
      requires Valid()
      modifies this
      ensures Valid() && State() == Timer.SwitchTab(old(State()), mode)
      ensures currentMode == mode && timeRemaining == old(timeRemaining) && isRunning == old(isRunning)
      ensures display == if old(isRunning) then old(display) else WriteTime(Timer.DefaultDuration(mode))
    {
      currentMode := mode;
      if !isRunning {
        display := WriteTime(if currentMode == Timer.Study then 25 * 60 else 5 * 60);
      }
      Timer.SwitchTabSpec(old(State()), mode);
    }

    /** `updateDisplay()`. */
    method UpdateDisplay()
      requires Valid()
      modifies this
      ensures Valid() && State() == Timer.UpdateDisplay(old(State()))
      ensures !old(isRunning) ==> timeRemaining == ReadEditableTime(old(display)) && display == WriteTime(timeRemaining)
      ensures old(isRunning) ==> State() == old(State())
    {
      if !isRunning {
        timeRemaining := ReadEditableTime(display);
        display := WriteTime(timeRemaining);
      }
      Timer.UpdateDisplaySpec(old(State()));
    }

    /** `toggleTimer()`, the start/pause button. */
    method ToggleTimer()
      requires Valid()
      modifies this
      ensures Valid() && State() == Timer.ToggleTimer(old(State()))
      ensures isRunning == !old(isRunning)
    {
      if isRunning {
        PauseTimer();
      } else {
        StartTimer();
      }
    }

    /** `startTimer()`. */
    method StartTimer()
      requires Valid()
      modifies this
      ensures Valid() && State() == Timer.StartTimer(old(State()))
      ensures isRunning && !editable && timeRemaining > 0
      ensures old(timeRemaining) != 0 ==> timeRemaining == old(timeRemaining)
      ensures liveTicks == {old(nextHandle)} && timerInterval == Some(old(nextHandle))
    {
      if timeRemaining == 0 {
        var read := ReadEditableTime(display);
        if read > 0 {
          timeRemaining := read;
        } else {
          timeRemaining := if currentMode == Timer.Study then 25 * 60 else 5 * 60;
        }
      }
      isRunning := true;
      editable := false;
      if timerInterval.Some? {
        liveTicks := liveTicks - {timerInterval.value};
      }
      display := WriteTime(timeRemaining);
      liveTicks := liveTicks + {nextHandle};
      timerInterval := Some(nextHandle);
      nextHandle := nextHandle + 1;
      Timer.StartTimerSpec(old(State()));
    }

    /** The callback of the live main-tick interval `handle`. */
    method Tick(handle: Timer.Handle)
      requires Valid() && handle in liveTicks
      modifies this
      ensures Valid() && State() == Timer.Tick(old(State()))
      ensures timeRemaining == old(timeRemaining) - 1 >= 0
      ensures isRunning <==> timeRemaining > 0
      ensures timeRemaining == 0 ==> currentMode == Timer.Opposite(old(currentMode)) && liveTicks == {}
    {
      timeRemaining := timeRemaining - 1;
      if timeRemaining >= 0 {
        display := WriteTime(timeRemaining);
      }
      if timeRemaining <= 0 {
        if timerInterval.Some? {
          liveTicks := liveTicks - {timerInterval.value};
        }
        timerInterval := None;
        SwitchMode();
      }
      Timer.TickSpec(old(State()));
    }

    /** `pauseTimer()`. */
    method PauseTimer()
      requires Valid()
      modifies this
      ensures Valid() && State() == Timer.PauseTimer(old(State()))
      ensures !isRunning && editable && liveTicks == {}
      ensures timeRemaining == old(timeRemaining) && currentMode == old(currentMode)
    {
      isRunning := false;
      if timerInterval.Some? {
        liveTicks := liveTicks - {timerInterval.value};
      }
      editable := true;
      Timer.PauseTimerSpec(old(State()));
    }

    /** `switchMode()`; called from the tick once its interval is cleared. */
    method SwitchMode()
      modifies this
      ensures State() == Timer.SwitchMode(old(State()))
      ensures !isRunning && currentMode == Timer.Opposite(old(currentMode))
    {
      isRunning := false;
      currentMode := if currentMode == Timer.Study then Timer.Break else Timer.Study;
      ShowCountdown();
    }

    /** `showCountdown()`: the first label, and a fresh countdown interval at index 0. */
    method ShowCountdown()
      modifies this
      ensures State() == Timer.ShowCountdown(old(State()))
      ensures countdowns == old(countdowns)[old(nextHandle) := 0] && countdownText == "3"
    {
      var index := 0;
      countdownText := Timer.CountdownLabels[index];
      countdowns := countdowns[nextHandle := index];
      nextHandle := nextHandle + 1;
    }

    /** The callback of the live countdown interval `handle`. */
    method CountdownStep(handle: Timer.Handle)
      requires Valid() && handle in countdowns
      modifies this
      ensures Valid() && State() == Timer.CountdownStep(old(State()), handle)
      ensures old(countdowns[handle]) + 1 < |Timer.CountdownLabels| ==>
        countdownText == Timer.CountdownLabels[old(countdowns[handle]) + 1] && isRunning == old(isRunning)
      ensures old(countdowns[handle]) + 1 == |Timer.CountdownLabels| ==>
        handle !in countdowns && isRunning && timeRemaining == Timer.DefaultDuration(currentMode)
    {
      var index := countdowns[handle] + 1;
      if index < |Timer.CountdownLabels| {
        countdowns := countdowns[handle := index];
        countdownText := Timer.CountdownLabels[index];
      } else {
        countdowns := countdowns - {handle};
        timeRemaining := if currentMode == Timer.Study then 25 * 60 else 5 * 60;
        display := WriteTime(timeRemaining);
        StartTimer();
      }
      Timer.CountdownStepSpec(old(State()), handle);
    }

    /** `onEditBlur()`. */
    method OnEditBlur()
      requires Valid()
      modifies this
      ensures Valid() && State() == Timer.OnEditBlur(old(State()))
      ensures ReadEditableTime(display) == ReadEditableTime(old(display))
      ensures old(isRunning) ==> State() == old(State())
    {
      var mins := ReadField(display.minutes);
      var secs := ReadField(display.seconds);
      var total := mins * 60 + secs;
      assert total == FieldsTotal(display);
      display := WriteTime(total);
      Timer.OnEditBlurSpec(old(State()));
    }

    /** The user types `text` into the unlocked fields. */
    method EditFields(text: Display)
      requires Valid() && editable
      modifies this
      ensures Valid() && State() == Timer.EditFields(old(State()), text)
      ensures display == text && !isRunning
    {
      display := text;
      Timer.EditFieldsSpec(old(State()), text);
    }
  }
}
