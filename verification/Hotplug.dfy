/** The hotplug watcher: a reader goroutine and a debouncing goroutine that share a trigger channel of
    capacity one, a resettable timer and an unbuffered output, as interleaved atomic steps. */
module Hotplug {
  import opened Basics

  /** What happened, in order; the instants come from a clock that never runs backwards. */
  datatype Entry =
    | Read(at: int)                       // a relevant message was read from the socket
    | Taken(at: int)                      // a trigger was received by the debounce loop
    | Emitted(at: int, synthetic: bool)   // an event was received by the consumer

  datatype Reader = Reading | Holding | Closed   // Holding: a relevant message is read, its trigger not offered yet

  datatype Phase = Starting | Selecting | Sending | Stopped

  datatype State = State(now: int, debounce: int,
                         reader: Reader, buffered: bool,
                         phase: Phase, draining: bool, timer: Option<int>,
                         cancelled: bool, log: seq<Entry>)

  function Initial(now: int, debounce: int): State {
    State(now, if debounce <= 0 then 3_000_000_000 else debounce, Reading, false, Starting, false, None, false, [])
  }

  datatype Action =
    | Tick(duration: nat)
    | Cancel
    | ReadMessage(relevant: bool)   // reader: ReadMessage returned
    | Offer                         // reader: the non-blocking send on triggers
    | StopReading                   // reader: a read error or cancellation closes triggers
    | EmitSynthetic                 // loop: the first send on out
    | Take                          // loop: a trigger is received, the timer started or reset
    | NoticeClosed                  // loop: triggers is closed and drained
    | Fire                          // loop: the timer channel is received
    | Emit                          // loop: the send on out after the timer fired
    | Abandon                       // loop: the context is done

  predicate Enabled(s: State, a: Action) {
    match a
    case Tick(_) => true
    case Cancel => true
    case ReadMessage(_) => s.reader == Reading
    case Offer => s.reader == Holding
    case StopReading => s.reader == Reading
    case EmitSynthetic => s.phase == Starting
    case Take => s.phase == Selecting && !s.draining && s.buffered
    case NoticeClosed => s.phase == Selecting && !s.draining && !s.buffered && s.reader == Closed
    case Fire => s.phase == Selecting && s.timer.Some? && s.timer.value <= s.now
    case Emit => s.phase == Sending
    case Abandon => s.cancelled && s.phase != Stopped
  }

  function Step(s: State, a: Action): State
    requires Enabled(s, a)
  {
    match a
    case Tick(d) => s.(now := s.now + d)
    case Cancel => s.(cancelled := true)
    case ReadMessage(relevant) => if relevant then s.(reader := Holding, log := s.log + [Read(s.now)]) else s
    case Offer => s.(reader := Reading, buffered := true)
    case StopReading => s.(reader := Closed)
    case EmitSynthetic => s.(phase := Selecting, log := s.log + [Emitted(s.now, true)])
    case Take => s.(buffered := false, timer := Some(s.now + s.debounce), log := s.log + [Taken(s.now)])
    case NoticeClosed => if s.timer.None? then s.(phase := Stopped) else s.(draining := true)
    case Fire => s.(phase := Sending)
    case Emit =>
      s.(phase := if s.draining then Stopped else Selecting, timer := None, log := s.log + [Emitted(s.now, false)])
    case Abandon => s.(phase := Stopped)
  }

  /** Follows a schedule; a step that is not enabled is skipped. */
  function Run(s: State, schedule: seq<Action>): State
    decreases |schedule|
  {
    if schedule == [] then s
    else Run(if Enabled(s, schedule[0]) then Step(s, schedule[0]) else s, schedule[1..])
  }

  // ---------- The two goroutines ----------

  class Watcher {
    var now: int
    var debounce: int
    var reading: bool        // the read loop has not returned
    var holding: bool        // it has a relevant message whose trigger is still to be offered
    var triggers: bool       // the buffer of the trigger channel
    var started: bool        // the synthetic event has been taken
    var stopped: bool        // out is closed
    var triggersCh: bool     // the loop still selects on triggers
    var timer: Option<int>   // when the running timer expires
    var sending: bool        // the timer has fired and its event is not taken yet
    var cancelled: bool
    ghost var log: seq<Entry>

    ghost predicate Valid()
      reads this
    {
      && (holding ==> reading)
      && (sending ==> started && !stopped)
    }

    ghost function View(): State
      reads this
    {
      State(now, debounce,
            if !reading then Closed else if holding then Holding else Reading,
            triggers,
            if stopped then Stopped else if !started then Starting else if sending then Sending else Selecting,
            !triggersCh, timer, cancelled, log)
    }

    constructor (now: int, debounce: int)
      ensures Valid() && View() == Initial(now, debounce)
    {
      this.now, this.debounce := now, if debounce <= 0 then 3_000_000_000 else debounce;
      reading, holding, triggers := true, false, false;
      started, stopped, triggersCh, timer, sending, cancelled := false, false, true, None, false, false;
      log := [];
    }

    /** One step of the read loop; false when the loop cannot take it now. */
    method RunReadLoop(a: Action) returns (done: bool)
      requires Valid() && (a.ReadMessage? || a.Offer? || a.StopReading?)
      modifies this
      ensures Valid() && done == Enabled(old(View()), a)
      ensures View() == if done then Step(old(View()), a) else old(View())
    {
      match a {
        case ReadMessage(relevant) =>
          done := reading && !holding;
          if done && relevant {
            holding, log := true, log + [Read(now)];
          }
        case Offer =>
          done := reading && holding;
          if done {
            holding := false;
            if !triggers {
              triggers := true;
            }
          }
        case StopReading =>
          done := reading && !holding;
          if done {
            reading := false;
          }
      }
    }

    /** A send on out, or the context ending the loop; false when the loop cannot do this now. */
    method SendOrAbandon(a: Action) returns (done: bool)
      requires Valid() && (a.EmitSynthetic? || a.Emit? || a.Abandon?)
      modifies this
      ensures Valid() && done == Enabled(old(View()), a)
      ensures View() == if done then Step(old(View()), a) else old(View())
    {
      match a {
        case EmitSynthetic =>
          done := !started && !stopped;
          if done {
            started, log := true, log + [Emitted(now, true)];
          }
        case Emit =>
          done := sending;
          if done {
            log := log + [Emitted(now, false)];
            timer, sending := None, false;
            if !triggersCh {
              stopped := true;
            }
          }
        case Abandon =>
          done := cancelled && !stopped;
          if done {
            stopped, sending := true, false;
          }
      }
    }

    /** One turn of the main select; false when it cannot proceed this way now. */
    method RunDebounceLoop(a: Action) returns (done: bool)
      requires Valid() && (a.Take? || a.NoticeClosed? || a.Fire?)
      modifies this
      ensures Valid() && done == Enabled(old(View()), a)
      ensures View() == if done then Step(old(View()), a) else old(View())
    {
      done := started && !sending && !stopped;
      match a {
        case Take =>
          done := done && triggersCh && triggers;
          if done {
            triggers, log := false, log + [Taken(now)];
            timer := Some(now + debounce);
          }
        case NoticeClosed =>
          done := done && triggersCh && !triggers && !reading;
          if done {
            if timer.None? {
              stopped := true;
            } else {
              triggersCh := false;
            }
          }
        case Fire =>
          done := done && timer.Some? && timer.value <= now;
          if done {
            sending := true;
          }
      }
    }

    method Wait(duration: nat)
      requires Valid()
      modifies this
      ensures Valid() && View() == Step(old(View()), Tick(duration))
    {
      now := now + duration;
    }

    method CancelContext()
      requires Valid()
      modifies this
      ensures Valid() && View() == Step(old(View()), Cancel)
    {
      cancelled := true;
    }

    /** One action of the environment or of a goroutine; nothing happens when it is not possible now. */
    method Perform(a: Action)
      requires Valid()
      modifies this
      ensures Valid()
      ensures View() == if Enabled(old(View()), a) then Step(old(View()), a) else old(View())
    {
      hide Step, Valid, View;
      if a.Tick? {
        Wait(a.duration);
      } else if a.Cancel? {
        CancelContext();
      } else if a.ReadMessage? || a.Offer? || a.StopReading? {
        var _ := RunReadLoop(a);
      } else if a.EmitSynthetic? || a.Emit? || a.Abandon? {
        var _ := SendOrAbandon(a);
      } else {
        var _ := RunDebounceLoop(a);
      }
    }

    /** Runs both goroutines, interleaved as the schedule says. */
    method Execute(schedule: seq<Action>)
      requires Valid()
      modifies this
      ensures Valid() && View() == Run(old(View()), schedule)
    {
      hide Step, Valid, View, Enabled;
      var left := schedule;
      while left != []
        invariant Valid() && Run(View(), left) == Run(old(View()), schedule)
        decreases |left|
      {
        Perform(left[0]);
        left := left[1..];
      }
    }
  }

  // ---------- What a log shows ----------

  /** No event has been emitted since some relevant message was read. */
  predicate Owed(log: seq<Entry>) {
    log != [] &&
    match log[|log| - 1]
    case Read(_) => true
    case Emitted(_, _) => false
    case Taken(_) => Owed(log[..|log| - 1])
  }

  function Reads(log: seq<Entry>): nat {
    if log == [] then 0 else Reads(log[..|log| - 1]) + if log[|log| - 1].Read? then 1 else 0
  }

  function Debounced(log: seq<Entry>): nat {
    if log == [] then 0
    else Debounced(log[..|log| - 1]) + match log[|log| - 1] { case Emitted(_, false) => 1 case _ => 0 }
  }

  function Triggers(log: seq<Entry>): nat {
    if log == [] then 0 else Triggers(log[..|log| - 1]) + if log[|log| - 1].Taken? then 1 else 0
  }

  /** The last trigger the loop received. */
  function LastTaken(log: seq<Entry>): Option<int> {
    if log == [] then None
    else match log[|log| - 1] { case Taken(at) => Some(at) case _ => LastTaken(log[..|log| - 1]) }
  }

  /** The last event the consumer received. */
  function LastEmitted(log: seq<Entry>): Option<int> {
    if log == [] then None
    else match log[|log| - 1] { case Emitted(at, _) => Some(at) case _ => LastEmitted(log[..|log| - 1]) }
  }

  /** A trigger has been taken since the last event. */
  predicate Armed(log: seq<Entry>) {
    log != [] &&
    match log[|log| - 1]
    case Taken(_) => true
    case Emitted(_, _) => false
    case Read(_) => Armed(log[..|log| - 1])
  }

  /** What an entry's predecessors must be: events start with the synthetic one, no other event is synthetic,
      and each of the others is armed by a trigger of its own and at least the debounce interval
      younger than the last trigger. */
  predicate Follows(before: seq<Entry>, e: Entry, debounce: int) {
    match e
    case Read(_) => true
    case Taken(_) => LastEmitted(before).Some?
    case Emitted(at, synthetic) =>
      if synthetic then LastEmitted(before).None?
      else
        && LastEmitted(before).Some?
        && Armed(before)
        && LastTaken(before).Some? && at >= LastTaken(before).value + debounce
  }

  predicate WellTimed(log: seq<Entry>, debounce: int) {
    log == [] ||
    (WellTimed(log[..|log| - 1], debounce) && Follows(log[..|log| - 1], log[|log| - 1], debounce))
  }

  predicate Chronological(log: seq<Entry>, now: int) {
    log == [] || (log[|log| - 1].at <= now && Chronological(log[..|log| - 1], log[|log| - 1].at))
  }

  /** A relevant message without an event yet has not been forgotten. */
  predicate Remembered(s: State) {
    s.reader == Holding || s.buffered || s.timer.Some?
  }

  predicate Safe(s: State) {
    && s.debounce > 0
    && WellTimed(s.log, s.debounce) && Chronological(s.log, s.now)
    && (Owed(s.log) && !(s.cancelled && s.phase == Stopped) ==> Remembered(s))
    // The phases of the loop.
    && (s.phase == Starting ==> LastEmitted(s.log).None? && LastTaken(s.log).None? && !s.draining)
    && (s.phase == Selecting || s.phase == Sending ==> LastEmitted(s.log).Some?)
    && (s.phase == Sending ==> s.timer.Some? && s.timer.value <= s.now)
    && (s.phase == Stopped && !s.cancelled ==> !Remembered(s) && s.reader == Closed)
    && (s.draining ==> s.reader == Closed && !s.buffered && (s.phase == Selecting ==> s.timer.Some?))
    // A running timer counts from the last trigger.
    && (s.timer.Some? ==>
          Armed(s.log) && LastTaken(s.log).Some? && s.timer.value == LastTaken(s.log).value + s.debounce)
    // Each event uses up a trigger, each trigger a message.
    && Debounced(s.log) + (if s.timer.Some? then 1 else 0) <= Triggers(s.log)
    && Triggers(s.log) + (if s.buffered then 1 else 0) + (if s.reader == Holding then 1 else 0) <= Reads(s.log)
  }

  /** What one more entry does to each summary of the log. */
  lemma Appended(log: seq<Entry>, e: Entry, debounce: int)
    ensures var more := log + [e];
            && Owed(more) == (e.Read? || (e.Taken? && Owed(log)))
            && Reads(more) == Reads(log) + (if e.Read? then 1 else 0)
            && Triggers(more) == Triggers(log) + (if e.Taken? then 1 else 0)
            && Debounced(more) == Debounced(log) + (if e.Emitted? && !e.synthetic then 1 else 0)
            && LastTaken(more) == (if e.Taken? then Some(e.at) else LastTaken(log))
            && LastEmitted(more) == (if e.Emitted? then Some(e.at) else LastEmitted(log))
            && Armed(more) == (e.Taken? || (e.Read? && Armed(log)))
            && WellTimed(more, debounce) == (WellTimed(log, debounce) && Follows(log, e, debounce))
            && (forall now | now >= e.at :: Chronological(more, now) == Chronological(log, e.at))
  {
    assert (log + [e])[..|log + [e]| - 1] == log;
  }

  lemma ChronologicalLater(log: seq<Entry>, now: int, later: int)
    requires Chronological(log, now) && now <= later
    ensures Chronological(log, later)
  {
  }

  lemma StepKeepsSafe(s: State, a: Action)
    requires Safe(s) && Enabled(s, a)
    ensures Safe(Step(s, a))
  {
    hide Owed, Reads, Triggers, Debounced, LastTaken, LastEmitted, Armed, WellTimed, Chronological;
    match a
    case Tick(d) => ChronologicalLater(s.log, s.now, s.now + d);
    case ReadMessage(_) => Appended(s.log, Read(s.now), s.debounce);
    case EmitSynthetic => Appended(s.log, Emitted(s.now, true), s.debounce);
    case Take => Appended(s.log, Taken(s.now), s.debounce);
    case Emit => Appended(s.log, Emitted(s.now, false), s.debounce);
    case _ =>
  }

  lemma {:induction false} RunKeepsSafe(s: State, schedule: seq<Action>)
    requires Safe(s)
    ensures Safe(Run(s, schedule)) && Run(s, schedule).debounce == s.debounce
    decreases |schedule|
  {
    hide Safe;
    if schedule != [] {
      var enabled := Enabled(s, schedule[0]);
      if enabled {
        StepKeepsSafe(s, schedule[0]);
      }
      RunKeepsSafe(if enabled then Step(s, schedule[0]) else s, schedule[1..]);
    }
  }

  lemma RunIsSafe(now: int, debounce: int, schedule: seq<Action>)
    ensures Safe(Run(Initial(now, debounce), schedule))
    ensures Run(Initial(now, debounce), schedule).debounce == Initial(now, debounce).debounce
  {
    RunKeepsSafe(Initial(now, debounce), schedule);
  }

  // ---------- What every run's log shows ----------

  ghost predicate Unserved(log: seq<Entry>, i: int) {
    0 <= i < |log| && log[i].Read? && forall j | i < j < |log| :: !log[j].Emitted?
  }

  /** Owed means that some relevant message has no event after it. */
  lemma {:induction false} OwedMeans(log: seq<Entry>)
    ensures Owed(log) <==> exists i :: Unserved(log, i)
  {
    if log != [] {
      var before, last := log[..|log| - 1], |log| - 1;
      OwedMeans(before);
      assert log[last].Read? ==> Unserved(log, last);
      forall i | log[last].Taken? ensures Unserved(before, i) <==> Unserved(log, i) {
        assert Unserved(before, i) ==> forall j | i < j < last :: log[j] == before[j];
        assert Unserved(log, i) ==> forall j | i < j < last :: before[j] == log[j];
      }
    }
  }

  /** No hotplug event is lost: on every schedule, while a relevant message awaits its event a trigger is
      held, buffered or timed, unless the watcher was cancelled; and once the output closes without a
      cancellation every relevant message has a later event. */
  lemma NoEventLost(now: int, debounce: int, schedule: seq<Action>)
    ensures var s := Run(Initial(now, debounce), schedule);
            && (Owed(s.log) && !(s.cancelled && s.phase == Stopped) ==> Remembered(s))
            && (s.phase == Stopped && !s.cancelled ==>
                  forall i | 0 <= i < |s.log| && s.log[i].Read? :: exists j :: i < j < |s.log| && s.log[j].Emitted?)
  {
    var s := Run(Initial(now, debounce), schedule);
    RunIsSafe(now, debounce, schedule);
    OwedMeans(s.log);
    assert forall i | 0 <= i < |s.log| && s.log[i].Read? ::
        Unserved(s.log, i) || exists j :: i < j < |s.log| && s.log[j].Emitted?;
  }

  lemma {:induction false} FollowsAt(log: seq<Entry>, debounce: int, j: nat)
    requires WellTimed(log, debounce) && j < |log|
    ensures Follows(log[..j], log[j], debounce)
  {
    if j < |log| - 1 {
      FollowsAt(log[..|log| - 1], debounce, j);
      assert log[..|log| - 1][..j] == log[..j];
    }
  }

  lemma {:induction false} ChronologicalMeans(log: seq<Entry>, now: int, i: nat, j: nat)
    requires Chronological(log, now) && i <= j < |log|
    ensures log[i].at <= log[j].at <= now
  {
    if i < |log| - 1 {
      ChronologicalMeans(log[..|log| - 1], log[|log| - 1].at, i, if j < |log| - 1 then j else i);
    }
  }

  lemma {:induction false} LastEmittedMeans(log: seq<Entry>)
    ensures LastEmitted(log).None? <==> forall i | 0 <= i < |log| :: !log[i].Emitted?
  {
    if log != [] {
      LastEmittedMeans(log[..|log| - 1]);
    }
  }

  /** The last trigger, by its place in the log. */
  lemma {:induction false} LastTakenMeans(log: seq<Entry>) returns (t: nat)
    requires LastTaken(log).Some?
    ensures t < |log| && log[t] == Taken(LastTaken(log).value)
    ensures forall k | t < k < |log| :: !log[k].Taken?
    ensures Armed(log) ==> forall k | t < k < |log| :: !log[k].Emitted?
  {
    if log[|log| - 1].Taken? {
      t := |log| - 1;
    } else {
      t := LastTakenMeans(log[..|log| - 1]);
    }
  }

  /** Exactly the first event is synthetic. */
  lemma SyntheticComesFirst(now: int, debounce: int, schedule: seq<Action>, j: nat)
    requires j < |Run(Initial(now, debounce), schedule).log|
    requires Run(Initial(now, debounce), schedule).log[j].Emitted?
    ensures var log := Run(Initial(now, debounce), schedule).log;
            log[j].synthetic <==> forall i | 0 <= i < j :: !log[i].Emitted?
  {
    var s := Run(Initial(now, debounce), schedule);
    RunIsSafe(now, debounce, schedule);
    FollowsAt(s.log, s.debounce, j);
    LastEmittedMeans(s.log[..j]);
    assert forall i | 0 <= i < j :: s.log[..j][i] == s.log[i];
  }

  /** Events after the synthetic one are no more numerous than the relevant messages. */
  lemma EventsAreBounded(now: int, debounce: int, schedule: seq<Action>)
    ensures var log := Run(Initial(now, debounce), schedule).log; Debounced(log) <= Triggers(log) <= Reads(log)
  {
    RunIsSafe(now, debounce, schedule);
  }

  /** A debounced event comes at least the debounce interval after the last trigger taken before it,
      which was taken after every earlier event; so events are at least that far apart, too. */
  lemma EventsAreDebounced(now: int, debounce: int, schedule: seq<Action>, j: nat) returns (t: nat)
    requires j < |Run(Initial(now, debounce), schedule).log|
    requires var e := Run(Initial(now, debounce), schedule).log[j]; e.Emitted? && !e.synthetic
    ensures var log := Run(Initial(now, debounce), schedule).log;
            var interval := if debounce <= 0 then 3_000_000_000 else debounce;
            && t < j && log[t].Taken? && (forall k | t < k < j :: !log[k].Taken? && !log[k].Emitted?)
            && log[j].at >= log[t].at + interval
            && forall i | 0 <= i < j && log[i].Emitted? :: i < t && log[j].at >= log[i].at + interval
  {
    var s := Run(Initial(now, debounce), schedule);
    RunIsSafe(now, debounce, schedule);
    FollowsAt(s.log, s.debounce, j);
    var before := s.log[..j];
    t := LastTakenMeans(before);
    forall k | t < k < j ensures !s.log[k].Taken? && !s.log[k].Emitted? {
      assert before[k] == s.log[k];
    }
    forall i | 0 <= i < j && s.log[i].Emitted? ensures i < t && s.log[j].at >= s.log[i].at + s.debounce {
      ChronologicalMeans(s.log, s.now, i, t);
    }
  }

  /** The timer is due exactly the interval asked for after the last trigger taken; three seconds, if none was. */
  lemma TimerIsDue(now: int, debounce: int, schedule: seq<Action>)
    ensures var s := Run(Initial(now, debounce), schedule);
            var interval := if debounce <= 0 then 3_000_000_000 else debounce;
            && (s.timer.Some? ==> LastTaken(s.log).Some?)
            && (Enabled(s, Fire) <==>
                  s.phase == Selecting && s.timer.Some? && s.now >= LastTaken(s.log).value + interval)
  {
    hide Run;
    RunIsSafe(now, debounce, schedule);
  }

  // ---------- Winding down ----------

  predicate IsLoopStep(a: Action) {
    a.EmitSynthetic? || a.Take? || a.NoticeClosed? || a.Fire? || a.Emit?
  }

  /** How many steps the debounce loop has left once the reader is gone. */
  function StepsLeft(s: State): nat {
    if s.phase == Stopped then 0
    else
      1 + (if s.phase == Starting then 1 else 0) + (if s.draining then 0 else 1) + (if s.buffered then 3 else 0)
      + (if s.timer.None? then 0 else if s.phase == Sending then 1 else 2)
  }

  /** With the reader gone the debounce loop is never stuck, given a consumer and time, and every one of
      its steps brings it closer to closing the output. */
  lemma LoopWindsDown(now: int, debounce: int, schedule: seq<Action>)
    ensures var s := Run(Initial(now, debounce), schedule);
            s.reader == Closed && s.phase != Stopped ==>
              && (forall a | IsLoopStep(a) && Enabled(s, a) :: StepsLeft(Step(s, a)) < StepsLeft(s) <= 8)
              && exists wait: nat, a :: IsLoopStep(a) && Enabled(Step(s, Tick(wait)), a)
  {
    hide WellTimed, Chronological, Owed, Run;
    var s := Run(Initial(now, debounce), schedule);
    RunIsSafe(now, debounce, schedule);
    if s.reader == Closed && s.phase != Stopped {
      var wait := if s.timer.Some? && s.timer.value > s.now then s.timer.value - s.now else 0;
      var a := match s.phase
        case Starting => EmitSynthetic
        case Sending => Emit
        case _ => if s.draining then Fire else if s.buffered then Take else NoticeClosed;
      assert IsLoopStep(a) && Enabled(Step(s, Tick(wait)), a);
    }
  }

  /** How many of the schedule's actions are steps the debounce loop takes. */
  function LoopSteps(s: State, schedule: seq<Action>): nat
    decreases |schedule|
  {
    if schedule == [] then 0
    else
      var a := schedule[0];
      (if Enabled(s, a) && IsLoopStep(a) then 1 else 0)
      + LoopSteps(if Enabled(s, a) then Step(s, a) else s, schedule[1..])
  }

  lemma StepsRunOut(s: State, a: Action)
    requires Safe(s) && s.reader == Closed && Enabled(s, a)
    ensures Step(s, a).reader == Closed
    ensures StepsLeft(Step(s, a)) + (if IsLoopStep(a) then 1 else 0) <= StepsLeft(s) <= 8
  {
    hide WellTimed, Chronological, Owed, Armed, LastTaken, Reads, Triggers, Debounced;
  }

  lemma {:induction false} LoopStepsBounded(s: State, schedule: seq<Action>)
    requires Safe(s) && s.reader == Closed
    ensures LoopSteps(s, schedule) + StepsLeft(Run(s, schedule)) <= StepsLeft(s) <= 8
    decreases |schedule|
  {
    hide Safe, StepsLeft, Step, Enabled;
    if schedule == [] {
      AtMostEight(s);
    } else {
      var a := schedule[0];
      var enabled := Enabled(s, a);
      if enabled {
        StepsRunOut(s, a);
        StepKeepsSafe(s, a);
      } else {
        AtMostEight(s);
      }
      LoopStepsBounded(if enabled then Step(s, a) else s, schedule[1..]);
    }
  }

  lemma AtMostEight(s: State)
    ensures StepsLeft(s) <= 8
  {
  }

  /** Once the reader is gone, the debounce loop takes at most eight more steps, whatever else happens. */
  lemma LoopEndsInEight(now: int, debounce: int, schedule: seq<Action>, more: seq<Action>)
    requires Run(Initial(now, debounce), schedule).reader == Closed
    ensures LoopSteps(Run(Initial(now, debounce), schedule), more) <= 8
  {
    RunIsSafe(now, debounce, schedule);
    LoopStepsBounded(Run(Initial(now, debounce), schedule), more);
  }

  /** A debounced event's trigger: the last one taken before it, after every earlier event, and at least the interval
      before it. */
  ghost predicate IsTriggeredBy(log: seq<Entry>, j: int, t: int, debounce: int) {
    && 0 <= t < j < |log| && log[t].Taken?
    && log[j].at >= log[t].at + (if debounce <= 0 then 3_000_000_000 else debounce)
    && forall k | t < k < j :: !log[k].Taken? && !log[k].Emitted?
  }

  /** A watcher run on a schedule: its log is the run's, so all of the above holds of it. Above all, once its output
      closes without a cancellation every relevant message has a later event, and each event after the synthetic one
      comes at least the interval asked for after its trigger. */
  method Watch(now: int, debounce: int, schedule: seq<Action>) returns (w: Watcher)
    ensures fresh(w) && w.Valid() && w.View() == Run(Initial(now, debounce), schedule)
    ensures w.stopped && !w.cancelled ==>
              forall i | 0 <= i < |w.log| && w.log[i].Read? :: exists j :: i < j < |w.log| && w.log[j].Emitted?
    ensures forall j | 0 <= j < |w.log| && w.log[j].Emitted? && !w.log[j].synthetic ::
              exists t :: IsTriggeredBy(w.log, j, t, debounce)
  {
    hide Run, Owed;
    w := new Watcher(now, debounce);
    w.Execute(schedule);
    NoEventLost(now, debounce, schedule);
    forall j | 0 <= j < |w.log| && w.log[j].Emitted? && !w.log[j].synthetic
      ensures exists t :: IsTriggeredBy(w.log, j, t, debounce)
    {
      var t := EventsAreDebounced(now, debounce, schedule, j);
      assert IsTriggeredBy(w.log, j, t, debounce);
    }
  }

  /** A loop that has stopped neither takes triggers nor emits events any more. */
  lemma {:induction false} StoppedIsQuiet(s: State, schedule: seq<Action>)
    requires s.phase == Stopped
    ensures var t := Run(s, schedule);
            && t.phase == Stopped && s.log <= t.log
            && forall i | |s.log| <= i < |t.log| :: t.log[i].Read?
    decreases |schedule|
  {
    if schedule != [] {
      StoppedIsQuiet(if Enabled(s, schedule[0]) then Step(s, schedule[0]) else s, schedule[1..]);
    }
  }

  /** The context can be cancelled at any time, and the loop can then stop wherever it is, for good. */
  lemma CancellationEnds(s: State, more: seq<Action>)
    ensures var t := Run(s, [Cancel, Abandon] + more);
            && t.phase == Stopped && s.log <= t.log
            && forall i | |s.log| <= i < |t.log| :: t.log[i].Read?
  {
    var schedule := [Cancel, Abandon] + more;
    var cancelled := s.(cancelled := true);
    var stopped := cancelled.(phase := Stopped);
    assert schedule[0] == Cancel && schedule[1..][0] == Abandon && schedule[1..][1..] == more;
    assert Run(s, schedule) == Run(cancelled, schedule[1..]);
    assert Run(cancelled, schedule[1..]) == Run(stopped, more);
    StoppedIsQuiet(stopped, more);
  }
}
