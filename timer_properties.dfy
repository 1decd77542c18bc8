/**
  What the timer promises, proved about the step functions of module Timer:
  the effect of each command, the countdown from a start to the "Time's Up!"
  dialog, and the invariant every command and tick keeps.
 */
module TimerProperties {

  import opened Wrappers
  import opened Timer
  import TimeFormat

  // ---- start, pause, resume ----

  /** From idle, START begins a run of the inputs' total, with a full ring; with nothing entered it does nothing. */
  lemma StartFromIdle(s: TimerState)
    requires Inv(s) && !s.isActive
    ensures var r := StartStep(s);
      && (Total(s) > 0 ==>
            && r.initialTime == Total(s) && r.timeLeft == Total(s)
            && r.isActive && !r.isPaused && !r.showActiveModal
            && r.inputMinutes == s.inputMinutes && r.inputSeconds == s.inputSeconds
            && Progress(r.timeLeft, r.initialTime) == 1.0)
      && (Total(s) <= 0 ==> r == s)
  {
  }

  /** Pausing keeps the countdown where it is, and resuming gives back exactly the state before the pause. */
  lemma PauseThenResume(s: TimerState)
    requires Inv(s) && s.isActive && !s.isPaused
    ensures var p := PauseStep(s);
      && p.isPaused && p.isActive
      && p.timeLeft == s.timeLeft && p.initialTime == s.initialTime
      && !Running(p) && TickStep(p) == p
      && StartStep(p) == s
  {
  }

  /** Resuming never reads the inputs: the run keeps its total whatever the inputs now add up to. */
  lemma ResumeKeepsTotal(s: TimerState)
    requires Inv(s) && s.isActive && s.isPaused
    ensures StartStep(s).initialTime == s.initialTime
    ensures StartStep(s).timeLeft == s.timeLeft
    ensures Running(StartStep(s))
  {
  }

  /** Why START is hidden while running: `handleStart` there would throw away the countdown and restart from the inputs. */
  lemma StartWhileRunningRestarts(s: TimerState)
    requires Inv(s) && s.isActive && !s.isPaused && Total(s) > 0
    ensures StartStep(s).timeLeft == Total(s) && StartStep(s).initialTime == Total(s)
  {
  }

  // ---- reset and dismiss ----

  /** RESET stops the run and empties the ring; the run's total and the inputs stay, and the dial shows the inputs again. */
  lemma ResetClears(s: TimerState)
    requires Inv(s) && s.isActive
    ensures var r := ResetStep(s);
      && !r.isActive && !r.isPaused && r.timeLeft == 0 && !r.showActiveModal
      && r.initialTime == s.initialTime
      && r.inputMinutes == s.inputMinutes && r.inputSeconds == s.inputSeconds
      && Progress(r.timeLeft, r.initialTime) == 0.0
      && Display(r) == TimeFormat.FormatTime(Total(s))
  {
  }

  /** Dismiss hides the dialog and changes nothing else, and the timer stays stopped. */
  lemma DismissOnlyClearsModal(s: TimerState)
    requires Inv(s) && s.showActiveModal
    ensures var r := DismissStep(s);
      && !r.showActiveModal
      && r.timeLeft == s.timeLeft == 0 && r.initialTime == s.initialTime
      && r.isActive == s.isActive == false && r.isPaused == s.isPaused
      && r.inputMinutes == s.inputMinutes && r.inputSeconds == s.inputSeconds
      && TickStep(r) == r
  {
  }

  // ---- the tick ----

  /** A tick takes exactly one second off, and only while the interval runs; the countdown never goes below zero. */
  lemma TickDecrement(s: TimerState)
    requires Inv(s)
    ensures var r := TickStep(s);
      && (r.timeLeft == s.timeLeft - 1 <==> Running(s))
      && (!Running(s) ==> r == s)
      && r.timeLeft >= 0
      && r.initialTime == s.initialTime
      && r.inputMinutes == s.inputMinutes && r.inputSeconds == s.inputSeconds
  {
  }

  /**
    A tick that finds the countdown at zero while active stops the timer and
    raises the dialog. No state that satisfies `Inv` is active at zero, so this
    describes the effect's branch on its own; expiry in reachable states is
    `ExpiresAfterExactly`.
   */
  lemma TickExpires(s: TimerState)
    requires s.timeLeft == 0 && s.isActive
    ensures var r := TickStep(s);
      && !r.isActive && r.showActiveModal
      && r.timeLeft == 0 && r.isPaused == s.isPaused && r.initialTime == s.initialTime
  {
  }

  /** `Ticks(s, n + 1)` is one more tick after `Ticks(s, n)`. */
  lemma {:induction false} TicksSucc(s: TimerState, n: nat)
    ensures Ticks(s, n + 1) == TickStep(Ticks(s, n))
    decreases n
  {
    if n > 0 {
      TicksSucc(TickStep(s), n - 1);
    }
  }

  /** Fewer ticks than seconds left count down one by one, and the timer keeps running. */
  lemma {:induction false} CountdownPrefix(s: TimerState, k: nat)
    requires Inv(s) && s.isActive && !s.isPaused && k < s.timeLeft
    ensures Ticks(s, k) == s.(timeLeft := s.timeLeft - k)
    decreases k
  {
    if k > 0 {
      CountdownPrefix(TickStep(s), k - 1);
    }
  }

  /** As many ticks as seconds left bring the countdown to zero, stop the timer and raise the dialog. */
  lemma {:induction false} ExpiresAfterExactly(s: TimerState)
    requires Inv(s) && s.isActive && !s.isPaused
    ensures Ticks(s, s.timeLeft) == s.(timeLeft := 0, isActive := false, showActiveModal := true)
    decreases s.timeLeft
  {
    if s.timeLeft > 1 {
      ExpiresAfterExactly(TickStep(s));
    }
  }

  /** A stopped timer ignores every tick. */
  lemma {:induction false} StoppedIgnoresTicks(s: TimerState, n: nat)
    requires !s.isActive
    ensures Ticks(s, n) == s
    decreases n
  {
    if n > 0 {
      StoppedIgnoresTicks(TickStep(s), n - 1);
    }
  }

  /**
    A run started with total T: after each of the first T - 1 ticks the timer is
    still running with T - k seconds left; the T-th tick ends it, with the dialog
    raised and an empty ring; after that no tick changes anything.
   */
  lemma StartThenRunDown(s: TimerState)
    requires Inv(s) && !s.isActive && Total(s) > 0
    ensures var started := StartStep(s);
      && (forall k :: 0 <= k < Total(s) ==>
            Ticks(started, k).isActive && Ticks(started, k).timeLeft == Total(s) - k)
      && Ticks(started, Total(s)).timeLeft == 0
      && !Ticks(started, Total(s)).isActive
      && Ticks(started, Total(s)).showActiveModal
      && Ticks(started, Total(s)).initialTime == Total(s)
      && Progress(Ticks(started, Total(s)).timeLeft, Ticks(started, Total(s)).initialTime) == 0.0
      && (forall n :: Ticks(Ticks(started, Total(s)), n) == Ticks(started, Total(s)))
  {
    var started := StartStep(s);
    forall k | 0 <= k < Total(s)
      ensures Ticks(started, k).isActive && Ticks(started, k).timeLeft == Total(s) - k
    {
      CountdownPrefix(started, k);
    }
    ExpiresAfterExactly(started);
    forall n: nat
      ensures Ticks(Ticks(started, Total(s)), n) == Ticks(started, Total(s))
    {
      StoppedIgnoresTicks(Ticks(started, Total(s)), n);
    }
  }

  // ---- the invariant ----

  /** Exactly one of START, RESUME and PAUSE is on screen; RESET and the inputs each show together with one of them; the dialog shows only beside START. */
  lemma OfferedControls(s: TimerState)
    requires Inv(s)
    ensures Enabled(s, Start) || Enabled(s, Resume) || Enabled(s, Pause)
    ensures Enabled(s, Start) ==> !Enabled(s, Resume) && !Enabled(s, Pause)
    ensures Enabled(s, Resume) ==> !Enabled(s, Pause)
    ensures Enabled(s, Reset) <==> !Enabled(s, Start)
    ensures forall p :: Enabled(s, SetMinutes(p)) && Enabled(s, SetSeconds(p)) <==> Enabled(s, Start)
    ensures Enabled(s, Dismiss) ==> Enabled(s, Start)
  {
  }

  lemma InitialSatisfiesInv()
    ensures Inv(Initial)
    ensures Display(Initial) == "00:10"
  {
    TimeFormat.FormatTime10();
  }

  /** Every command the component offers, and every tick, keeps the invariant. */
  lemma StepPreservesInv(s: TimerState, c: Command)
    requires Inv(s) && Enabled(s, c)
    ensures Inv(Step(s, c))
  {
  }

  lemma {:induction false} RunPreservesInv(s: TimerState, cs: seq<Command>)
    requires Inv(s) && Admissible(s, cs)
    ensures Inv(Run(s, cs))
    decreases |cs|
  {
    if cs != [] {
      StepPreservesInv(s, cs[0]);
      RunPreservesInv(Step(s, cs[0]), cs[1..]);
    }
  }

  /**
    Whatever the user does from mount: the inputs are never negative, the
    countdown stays within the run's total, the ring's ratio within [0, 1], and
    the dialog is shown only once the timer has stopped at zero.
   */
  lemma ReachableStates(cs: seq<Command>)
    requires Admissible(Initial, cs)
    ensures var r := Run(Initial, cs);
      && r.inputMinutes >= 0 && r.inputSeconds >= 0
      && 0 <= r.timeLeft <= r.initialTime && r.initialTime > 0
      && 0.0 <= Progress(r.timeLeft, r.initialTime) <= 1.0
      && (r.showActiveModal ==> !r.isActive && r.timeLeft == 0)
  {
    InitialSatisfiesInv();
    RunPreservesInv(Initial, cs);
  }

  // ---- what the dial shows ----

  /** The dial's text reads back as the countdown while there is one, and as the inputs' total otherwise. */
  lemma DisplayReadsBack(s: TimerState)
    requires Inv(s)
    ensures s.isActive || s.timeLeft > 0 ==> TimeFormat.ParseTime(Display(s)) == Some(s.timeLeft)
    ensures !s.isActive && s.timeLeft == 0 ==> TimeFormat.ParseTime(Display(s)) == Some(Total(s))
  {
    TimeFormat.FormatTimeRoundTrip(DisplaySeconds(s));
  }

  // ---- a ten-second run of the component ----

  /** A ten-second run with the mount defaults: ten ticks raise the dialog; Dismiss hides it and the dial shows the inputs' "00:10". */
  method TenSecondRun() returns (expired: bool, dismissed: bool, shown: string)
    ensures expired && !dismissed
    ensures shown == "00:10"
  {
    var t := new ClockTimer();
    InitialSatisfiesInv();
    t.HandleStart();
    ghost var started := t.State();
    var i := 0;
    while i < 10
      invariant 0 <= i <= 10
      invariant t.Valid() && t.State() == Ticks(started, i)
    {
      TicksSucc(started, i);
      t.Tick();
      i := i + 1;
    }
    ExpiresAfterExactly(started);
    expired := t.showActiveModal && !t.isActive && t.timeLeft == 0;
    t.Dismiss();
    dismissed := t.showActiveModal;
    shown := Display(t.State());
  }
}
