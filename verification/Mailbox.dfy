/** The one-slot mailbox between the manager and the emitter: publishers that never wait, and a pump that delivers
    the newest state. */
module Mailbox {
  import opened Common

  /** The pump between two of its steps; `mark` is the position, among everything published, of what it holds. */
  datatype Pump<T> = Waiting | Woken | Holding(state: T, mark: nat) | Stopped

  /** `signalled` is the one-slot channel. `marks` are the positions in `published` of what was emitted. */
  datatype System<T> = System(
    published: seq<T>, pending: Option<T>, signalled: bool, pump: Pump<T>, emitted: seq<T>, marks: seq<nat>)

  datatype Event<T> = Publish(state: T) | Wake | Read | Emit | Stop

  function Step<T>(s: System<T>, event: Event<T>): Option<System<T>> {
    match event
    case Publish(state) =>
      Some(s.(published := s.published + [state], pending := Some(state), signalled := true))
    case Wake =>
      if s.pump.Waiting? && s.signalled then Some(s.(pump := Woken, signalled := false)) else None
    case Read =>
      if s.pump.Woken? && s.pending.Some? && s.published != []
      then Some(s.(pump := Holding(s.pending.value, |s.published| - 1))) else None
    case Emit =>
      if s.pump.Holding?
      then Some(s.(pump := Waiting, emitted := s.emitted + [s.pump.state], marks := s.marks + [s.pump.mark])) else None
    case Stop => if s.pump.Waiting? then Some(s.(pump := Stopped)) else None
  }

  function Run<T>(events: seq<Event<T>>): Option<System<T>> {
    if events == [] then Some(System([], None, false, Waiting, [], []))
    else match Run(events[..|events| - 1])
      case None => None
      case Some(before) => Step(before, events[|events| - 1])
  }

  /** Everything emitted was published, at positions that never go back. */
  ghost predicate InOrder<T>(s: System<T>) {
    |s.emitted| == |s.marks| &&
    (forall i | 0 <= i < |s.marks| :: s.marks[i] < |s.published| && s.emitted[i] == s.published[s.marks[i]]) &&
    (forall i, j | 0 <= i <= j < |s.marks| :: s.marks[i] <= s.marks[j])
  }

  ghost predicate Invariant<T>(s: System<T>) {
    InOrder(s) &&
    s.pending == (if s.published == [] then None else Some(s.published[|s.published| - 1])) &&
    (s.signalled || s.pump.Woken? ==> s.published != []) &&
    (s.pump.Holding? ==> s.pump.mark < |s.published| && s.pump.state == s.published[s.pump.mark] &&
                         forall i | 0 <= i < |s.marks| :: s.marks[i] <= s.pump.mark) &&
    (s.published != [] && !s.signalled ==>
       match s.pump
       case Holding(_, mark) => mark == |s.published| - 1
       case Waiting => s.marks != [] && s.marks[|s.marks| - 1] == |s.published| - 1
       case Woken => true
       case Stopped => true)
  }

  lemma StepKeepsInvariant<T>(s: System<T>, event: Event<T>)
    requires Invariant(s) && Step(s, event).Some?
    ensures Invariant(Step(s, event).value)
  {
    match event
    case Emit => EmitKeepsOrder(s);
    case _ =>
  }

  lemma EmitKeepsOrder<T>(s: System<T>)
    requires Invariant(s) && s.pump.Holding?
    ensures InOrder(s.(emitted := s.emitted + [s.pump.state], marks := s.marks + [s.pump.mark]))
  {
  }

  lemma {:induction false} RunKeepsInvariant<T>(events: seq<Event<T>>)
    requires Run(events).Some?
    ensures Invariant(Run(events).value)
  {
    if events != [] {
      RunKeepsInvariant(events[..|events| - 1]);
      StepKeepsInvariant(Run(events[..|events| - 1]).value, events[|events| - 1]);
    }
  }

  /** For every interleaving: the emitted states are published ones in the order they were published, and when the
      pump waits on an empty channel the last one it emitted is the last one published. */
  lemma DeliversInOrderAndLosesNoWakeup<T>(events: seq<Event<T>>)
    requires Run(events).Some?
    ensures var s := Run(events).value;
            InOrder(s) &&
            (s.pump.Waiting? && !s.signalled && s.published != [] ==>
               s.emitted != [] && s.emitted[|s.emitted| - 1] == s.published[|s.published| - 1])
  {
    RunKeepsInvariant(events);
  }

  /** A publisher never waits, and a pump that is not stopped can always take its next step once something is due. */
  lemma NobodyWaitsForGood<T>(events: seq<Event<T>>, state: T)
    requires Run(events).Some?
    ensures var s := Run(events).value;
            Step(s, Publish(state)).Some? &&
            (s.pump.Woken? ==> Step(s, Read).Some?) && (s.pump.Holding? ==> Step(s, Emit).Some?) &&
            (s.pump.Waiting? && s.signalled ==> Step(s, Wake).Some?)
  {
    RunKeepsInvariant(events);
  }
}
