/**
  The practice timer of ClockTimer.tsx: seven pieces of component state, the
  commands the buttons and inputs trigger, and the once-per-second tick.

  `TimerState` is the state as a value and the `...Step` functions say what
  each command does to it; the class `ClockTimer` holds the same state in
  fields and has one method per command, each proved to perform its step.
  The lemmas of module TimerProperties reason about the step functions.
 */
module Timer {

  import opened Wrappers
  import TimeFormat

  datatype TimerState = TimerState(
    inputMinutes: int,
    inputSeconds: int,
    timeLeft: int,
    initialTime: int,
    isActive: bool,
    isPaused: bool,
    showActiveModal: bool)

  /** The state when the component mounts. */
  const Initial := TimerState(0, 10, 10, 10, false, false, false)

  /** What the state keeps between any two commands or ticks. */
  predicate Inv(s: TimerState) {
    && s.inputMinutes >= 0 && s.inputSeconds >= 0
    && 0 <= s.timeLeft <= s.initialTime
    && s.initialTime > 0
    && (s.isPaused ==> s.isActive)
    && (s.isActive ==> s.timeLeft > 0)
    && (s.showActiveModal ==> !s.isActive && s.timeLeft == 0)
  }

  /** The duration the two inputs ask for. */
  function Total(s: TimerState): int {
    s.inputMinutes * 60 + s.inputSeconds
  }

  /** The interval is installed, so ticks count down. */
  predicate Running(s: TimerState) {
    s.isActive && !s.isPaused && s.timeLeft > 0
  }

  // ---- the commands, as functions on the state ----

  /** `handleStart`: resume when paused; otherwise start a new run from the inputs, unless they add up to nothing. */
  function StartStep(s: TimerState): (r: TimerState)
    ensures r.inputMinutes == s.inputMinutes && r.inputSeconds == s.inputSeconds
    ensures Inv(s) ==> Inv(r)
  {
    if s.isActive && s.isPaused then
      s.(isPaused := false)
    else if Total(s) <= 0 then
      s
    else
      s.(initialTime := Total(s), timeLeft := Total(s), isActive := true, isPaused := false, showActiveModal := false)
  }

  /** `handlePause`. */
  function PauseStep(s: TimerState): (r: TimerState)
    ensures r.timeLeft == s.timeLeft && r.initialTime == s.initialTime && r.isActive == s.isActive
    ensures Inv(s) && s.isActive ==> Inv(r) && r.isPaused && !Running(r)
  {
    s.(isPaused := true)
  }

  /** `handleReset`. */
  function ResetStep(s: TimerState): (r: TimerState)
    ensures r.initialTime == s.initialTime
    ensures r.inputMinutes == s.inputMinutes && r.inputSeconds == s.inputSeconds
    ensures !Running(r) && !r.showActiveModal
    ensures Inv(s) ==> Inv(r)
  {
    s.(isActive := false, isPaused := false, timeLeft := 0, showActiveModal := false)
  }

  /** The Dismiss button of the "Time's Up!" dialog. */
  function DismissStep(s: TimerState): (r: TimerState)
    ensures !r.showActiveModal && r.(showActiveModal := s.showActiveModal) == s
    ensures Inv(s) ==> Inv(r)
  {
    s.(showActiveModal := false)
  }

  /** The effect's second branch, run whenever the state it depends on changes. */
  function ExpireStep(s: TimerState): (r: TimerState)
    ensures r.timeLeft == s.timeLeft && r.initialTime == s.initialTime && r.isPaused == s.isPaused
    ensures r.inputMinutes == s.inputMinutes && r.inputSeconds == s.inputSeconds
    ensures !(r.isActive && r.timeLeft == 0)
    ensures r != s ==> r.showActiveModal && !r.isActive
  {
    if s.timeLeft == 0 && s.isActive then s.(isActive := false, showActiveModal := true) else s
  }

  /** One second: the interval's decrement if it is installed, then the effect's expiry check. */
  function TickStep(s: TimerState): (r: TimerState)
    ensures r.initialTime == s.initialTime
    ensures r.inputMinutes == s.inputMinutes && r.inputSeconds == s.inputSeconds
    ensures !(r.isActive && r.timeLeft == 0)
    ensures Inv(s) ==> Inv(r)
  {
    ExpireStep(if Running(s) then s.(timeLeft := s.timeLeft - 1) else s)
  }

  /** `Math.max(0, parseInt(value) || 0)`, where None is a parse that gave NaN. */
  function ClampInput(parsed: Option<int>): (r: int)
    ensures r >= 0
    ensures parsed.Some? && parsed.value >= 0 ==> r == parsed.value
    ensures parsed.None? || parsed.value <= 0 ==> r == 0
  {
    match parsed
    case None => 0
    case Some(v) => if v > 0 then v else 0
  }

  function SetMinutesStep(s: TimerState, parsed: Option<int>): (r: TimerState)
    ensures r.inputMinutes >= 0 && r.(inputMinutes := s.inputMinutes) == s
    ensures Inv(s) ==> Inv(r)
  {
    s.(inputMinutes := ClampInput(parsed))
  }

  function SetSecondsStep(s: TimerState, parsed: Option<int>): (r: TimerState)
    ensures r.inputSeconds >= 0 && r.(inputSeconds := s.inputSeconds) == s
    ensures Inv(s) ==> Inv(r)
  {
    s.(inputSeconds := ClampInput(parsed))
  }

  // ---- the values the component derives when it renders ----

  /** `initialTime ? timeLeft / initialTime : 0`. */
  function Progress(timeLeft: int, initialTime: int): (r: real)
    ensures 0 <= timeLeft <= initialTime && initialTime > 0 ==> 0.0 <= r <= 1.0
    ensures initialTime > 0 ==> (r == 1.0 <==> timeLeft == initialTime)
    ensures r == 0.0 <==> timeLeft == 0 || initialTime == 0
  {
    if initialTime != 0 then timeLeft as real / initialTime as real else 0.0
  }

  /** The number of seconds the dial shows: the countdown while there is one, otherwise the inputs' total. */
  function DisplaySeconds(s: TimerState): (r: int)
    ensures r == s.timeLeft || r == Total(s)
    ensures s.isActive ==> r == s.timeLeft
    ensures Inv(s) ==> r >= 0
  {
    if s.isActive || s.timeLeft > 0 then s.timeLeft else Total(s)
  }

  /** The text in the middle of the dial. */
  function Display(s: TimerState): (text: string)
    requires Inv(s)
    ensures TimeFormat.ParseTime(text) == Some(DisplaySeconds(s))
    ensures |text| == 5 <==> DisplaySeconds(s) < 6000
  {
    TimeFormat.FormatTimeRoundTrip(DisplaySeconds(s));
    TimeFormat.FormatTimeLength(DisplaySeconds(s));
    TimeFormat.FormatTime(DisplaySeconds(s))
  }

  // ---- what the user can trigger ----

  datatype Command =
    | Start
    | Resume
    | Pause
    | Reset
    | Dismiss
    | Tick
    | SetMinutes(parsed: Option<int>)
    | SetSeconds(parsed: Option<int>)

  /** Whether the rendered component offers the command: the buttons, the inputs and the dialog each appear only in some states. */
  predicate Enabled(s: TimerState, c: Command) {
    match c
    case Start => !s.isActive
    case Resume => s.isActive && s.isPaused
    case Pause => s.isActive && !s.isPaused
    case Reset => s.isActive
    case Dismiss => s.showActiveModal
    case Tick => true
    case SetMinutes(_) => !s.isActive
    case SetSeconds(_) => !s.isActive
  }

  function Step(s: TimerState, c: Command): TimerState {
    match c
    case Start => StartStep(s)
    case Resume => StartStep(s)
    case Pause => PauseStep(s)
    case Reset => ResetStep(s)
    case Dismiss => DismissStep(s)
    case Tick => TickStep(s)
    case SetMinutes(p) => SetMinutesStep(s, p)
    case SetSeconds(p) => SetSecondsStep(s, p)
  }

  /** The state after the commands, one after the other. */
  function Run(s: TimerState, cs: seq<Command>): TimerState
    decreases |cs|
  {
    if cs == [] then s else Run(Step(s, cs[0]), cs[1..])
  }

  /** Every command of the sequence is offered in the state it is applied to. */
  predicate Admissible(s: TimerState, cs: seq<Command>)
    decreases |cs|
  {
    cs == [] || (Enabled(s, cs[0]) && Admissible(Step(s, cs[0]), cs[1..]))
  }

  /** `n` seconds. */
  function Ticks(s: TimerState, n: nat): TimerState
    decreases n
  {
    if n == 0 then s else Ticks(TickStep(s), n - 1)
  }

  // ---- the component itself ----

  class ClockTimer {
    var inputMinutes: int
    var inputSeconds: int
    var timeLeft: int
    var initialTime: int
    var isActive: bool
    var isPaused: bool
    var showActiveModal: bool

    function State(): TimerState
      reads this
    {
      TimerState(inputMinutes, inputSeconds, timeLeft, initialTime, isActive, isPaused, showActiveModal)
    }

    predicate Valid()
      reads this
    {
      Inv(State())
    }

    constructor ()
      ensures Valid() && State() == Initial
    {
      inputMinutes, inputSeconds := 0, 10;
      timeLeft, initialTime := 10, 10;
      isActive, isPaused, showActiveModal := false, false, false;
    }

    /** START (when idle) and RESUME (when paused) both call `handleStart`. */
    method HandleStart()
      requires Valid() && (!isActive || isPaused)
      modifies this
      ensures Valid() && State() == StartStep(old(State()))
    {
      if isActive && isPaused {
        isPaused := false;
        return;
      }
      var totalSeconds := inputMinutes * 60 + inputSeconds;
      if totalSeconds <= 0 {
        return;
      }
      initialTime := totalSeconds;
      timeLeft := totalSeconds;
      isActive := true;
      isPaused := false;
      showActiveModal := false;
    }

    method HandlePause()
      requires Valid() && isActive && !isPaused
      modifies this
      ensures Valid() && State() == PauseStep(old(State()))
    {
      isPaused := true;
    }

    method HandleReset()
      requires Valid() && isActive
      modifies this
      ensures Valid() && State() == ResetStep(old(State()))
    {
      isActive := false;
      isPaused := false;
      timeLeft := 0;
      showActiveModal := false;
    }

    method Dismiss()
      requires Valid() && showActiveModal
      modifies this
      ensures Valid() && State() == DismissStep(old(State()))
    {
      showActiveModal := false;
    }

    /** One firing of the one-second interval, followed by the effect's re-run. */
    method Tick()
      requires Valid()
      modifies this
      ensures Valid() && State() == TickStep(old(State()))
    {
      if isActive && !isPaused && timeLeft > 0 {
        timeLeft := timeLeft - 1;
      }
      if timeLeft == 0 && isActive {
        isActive := false;
        showActiveModal := true;
      }
    }

    /** The minutes input's `onChange`; the input is only shown while idle. */
    method SetInputMinutes(parsed: Option<int>)
      requires Valid() && !isActive
      modifies this
      ensures Valid() && State() == SetMinutesStep(old(State()), parsed)
    {
      inputMinutes := ClampInput(parsed);
    }

    /** The seconds input's `onChange`; the input is only shown while idle. */
    method SetInputSeconds(parsed: Option<int>)
      requires Valid() && !isActive
      modifies this
      ensures Valid() && State() == SetSecondsStep(old(State()), parsed)
    {
      inputSeconds := ClampInput(parsed);
    }
  }
}
