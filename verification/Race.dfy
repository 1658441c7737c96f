/** Racing the mirrors for a manifest: the buffered channel between the senders and the collector, and the
    collector's loop. */
module Race {
  import opened Common
  import opened Mirrors
  import opened Manifests

  datatype Answer = Answer(sender: nat, outcome: Result<Manifest, Error>)

  /** A manifest, or one written for a later build, ends the race; any other failure lets it go on. */
  predicate Decisive(outcome: Result<Manifest, Error>) {
    outcome.Ok? || IsTooNew(outcome.error)
  }

  // ---- The channel -------------------------------------------------------------------------------

  datatype Sender = Delayed | Fetching | Sent

  /** Collector and senders over a channel with one slot per sender. `received` is what the collector took, in
      order, and `decided` says one of those was decisive. */
  datatype System = System(senders: seq<Sender>, queue: seq<Answer>, received: seq<Answer>, decided: bool)

  datatype Event =
    | Start(sender: nat)                                       // the stagger timer fired
    | Send(sender: nat, outcome: Result<Manifest, Error>)      // fetched, or the race was over first
    | Receive

  predicate Collecting(s: System) {
    !s.decided && |s.received| < |s.senders|
  }

  /** None when the event cannot happen; a send is possible only while the buffer has room. */
  function Step(s: System, event: Event): Option<System> {
    match event
    case Start(i) =>
      if i < |s.senders| && s.senders[i] == Delayed
      then Some(s.(senders := s.senders[i := Fetching])) else None
    case Send(i, outcome) =>
      if i < |s.senders| && s.senders[i] != Sent && |s.queue| < |s.senders|
      then Some(s.(senders := s.senders[i := Sent], queue := s.queue + [Answer(i, outcome)])) else None
    case Receive =>
      if Collecting(s) && s.queue != []
      then Some(s.(queue := s.queue[1..], received := s.received + [s.queue[0]],
                   decided := Decisive(s.queue[0].outcome))) else None
  }

  function Initial(n: nat): System {
    System(seq(n, _ => Delayed), [], [], false)
  }

  /** The race of n mirrors after `events`, None when they cannot happen in that order. */
  function Run(n: nat, events: seq<Event>): Option<System> {
    if events == [] then Some(Initial(n))
    else match Run(n, events[..|events| - 1])
      case None => None
      case Some(before) => Step(before, events[|events| - 1])
  }

  ghost predicate DistinctSenders(answers: seq<Answer>) {
    forall i, j | 0 <= i < j < |answers| :: answers[i].sender != answers[j].sender
  }

  function SendersOf(answers: seq<Answer>): set<nat> {
    set a | a in answers :: a.sender
  }

  ghost function Done(senders: seq<Sender>): set<nat> {
    set i: nat | i < |senders| && senders[i] == Sent
  }

  /** Each sender that has sent is in the channel or was received, exactly once. */
  ghost predicate Invariant(s: System) {
    DistinctSenders(s.received + s.queue) && SendersOf(s.received + s.queue) == Done(s.senders) &&
    (!s.decided ==> forall a | a in s.received :: !Decisive(a.outcome)) &&
    (s.decided ==> s.received != [] && Decisive(s.received[|s.received| - 1].outcome) &&
                   forall i | 0 <= i < |s.received| - 1 :: !Decisive(s.received[i].outcome))
  }

  lemma StepKeepsInvariant(s: System, event: Event)
    requires Invariant(s) && Step(s, event).Some?
    ensures Invariant(Step(s, event).value)
  {
    var t := Step(s, event).value;
    var all := s.received + s.queue;
    match event
    case Start(i) =>
      assert Done(t.senders) == Done(s.senders);
    case Send(i, outcome) =>
      assert t.received + t.queue == all + [Answer(i, outcome)];
      assert Done(t.senders) == Done(s.senders) + {i};
      assert SendersOf(all + [Answer(i, outcome)]) == SendersOf(all) + {i};
      assert forall k | 0 <= k < |all| :: all[k].sender in SendersOf(all);
    case Receive =>
      assert t.received + t.queue == all;
      assert forall a | a in t.received :: a in s.received || a == s.queue[0];
  }

  lemma {:induction false} RunKeepsInvariant(n: nat, events: seq<Event>)
    requires Run(n, events).Some?
    ensures Invariant(Run(n, events).value) && |Run(n, events).value.senders| == n
  {
    if events != [] {
      RunKeepsInvariant(n, events[..|events| - 1]);
      StepKeepsInvariant(Run(n, events[..|events| - 1]).value, events[|events| - 1]);
    }
  }

  lemma {:induction false} CountSenders(answers: seq<Answer>)
    requires DistinctSenders(answers)
    ensures |SendersOf(answers)| == |answers|
  {
    if answers != [] {
      var init, last := answers[..|answers| - 1], answers[|answers| - 1];
      CountSenders(init);
      assert SendersOf(answers) == SendersOf(init) + {last.sender};
    }
  }

  lemma {:induction false} CountDone(senders: seq<Sender>)
    ensures |Done(senders)| <= |senders|
    ensures |Done(senders)| == |senders| <==> forall i | 0 <= i < |senders| :: senders[i] == Sent
  {
    if senders != [] {
      var init, last := senders[..|senders| - 1], |senders| - 1;
      CountDone(init);
      assert forall i | i in Done(init) :: i < last;
      assert Done(senders) == Done(init) + if senders[last] == Sent then {last} else {};
    }
  }

  /** In every reachable state a sender that has not sent finds a free slot, and while the collector waits
      either a result is queued for it or some sender has yet to send: nobody blocks for good. */
  lemma NobodyBlocks(n: nat, events: seq<Event>)
    requires Run(n, events).Some?
    ensures var s := Run(n, events).value;
            |s.senders| == n &&
            (forall i, outcome | 0 <= i < n && s.senders[i] != Sent :: Step(s, Send(i, outcome)).Some?) &&
            (Collecting(s) ==> Step(s, Receive).Some? || exists i :: 0 <= i < n && s.senders[i] != Sent) &&
            DistinctSenders(s.received) &&
            (!s.decided && !Collecting(s) ==> |s.received| == n && s.queue == [])
  {
    var s := Run(n, events).value;
    RunKeepsInvariant(n, events);
    CountSenders(s.received + s.queue);
    CountDone(s.senders);
    assert (s.received + s.queue)[..|s.received|] == s.received;
  }

  function Waiting(senders: seq<Sender>): nat {
    if senders == [] then 0
    else Waiting(senders[..|senders| - 1]) +
         match senders[|senders| - 1] case Delayed => 3 case Fetching => 2 case Sent => 0
  }

  lemma {:induction false} WaitingDrops(senders: seq<Sender>, i: nat, next: Sender)
    requires i < |senders| && next != Delayed && senders[i] != Sent && senders[i] != next
    ensures Waiting(senders[i := next]) + (if next == Sent then 2 else 1) <= Waiting(senders)
  {
    var init := senders[..|senders| - 1];
    if i < |init| {
      WaitingDrops(init, i, next);
      assert senders[i := next][..|senders| - 1] == init[i := next];
    } else {
      assert senders[i := next][..|senders| - 1] == init;
    }
  }

  /** Every event uses up part of a fixed budget, so a race runs to its end. */
  lemma RaceTerminates(s: System, event: Event)
    requires Step(s, event).Some?
    ensures var t := Step(s, event).value;
            Waiting(t.senders) + |t.queue| < Waiting(s.senders) + |s.queue|
  {
    match event
    case Start(i) => WaitingDrops(s.senders, i, Fetching);
    case Send(i, _) => WaitingDrops(s.senders, i, Sent);
    case Receive =>
  }

  // ---- The collector ----------------------------------------------------------------------------

  function UsableMirrors(mirrors: seq<Mirror>): seq<Mirror> {
    if mirrors == [] then []
    else UsableMirrors(mirrors[..|mirrors| - 1]) +
         if mirrors[|mirrors| - 1].Valid() then [mirrors[|mirrors| - 1]] else []
  }

  ghost predicate FirstDecisive(arrivals: seq<Answer>, k: int) {
    0 <= k < |arrivals| && Decisive(arrivals[k].outcome) &&
    forall j | 0 <= j < k :: !Decisive(arrivals[j].outcome)
  }

  /** What the collector has taken when it stops: every sender once, or fewer with a decisive one last seen. */
  ghost predicate Complete(n: nat, arrivals: seq<Answer>) {
    DistinctSenders(arrivals) && (forall a | a in arrivals :: a.sender < n) &&
    (|arrivals| == n || exists k :: FirstDecisive(arrivals, k))
  }

  /** A collector that has stopped holds a complete arrival order, whatever the interleaving was. */
  lemma FinishedIsComplete(n: nat, events: seq<Event>)
    requires Run(n, events).Some? && !Collecting(Run(n, events).value)
    ensures Complete(n, Run(n, events).value.received)
  {
    var s := Run(n, events).value;
    RunKeepsInvariant(n, events);
    NobodyBlocks(n, events);
    forall a | a in s.received ensures a.sender < n {
      assert a in s.received + s.queue;
      assert a.sender in SendersOf(s.received + s.queue);
    }
    if s.decided {
      assert FirstDecisive(s.received, |s.received| - 1);
    }
  }

  function Conclusion(usable: seq<Mirror>, answer: Answer): Result<Fetched, Error>
    requires answer.sender < |usable|
  {
    match answer.outcome
    case Ok(manifest) => Ok(Fetched(manifest, usable[answer.sender], Order(usable, usable[answer.sender])))
    case Err(error) => Err(error)
  }

  function Reasons(usable: seq<Mirror>, arrivals: seq<Answer>): (reasons: seq<Reason>)
    requires forall a | a in arrivals :: a.sender < |usable| && !Decisive(a.outcome)
    ensures |reasons| == |arrivals|
  {
    seq(|arrivals|, i requires 0 <= i < |arrivals| =>
        assert arrivals[i] in arrivals && !Decisive(arrivals[i].outcome);
        Reason(usable[arrivals[i].sender].name, arrivals[i].outcome.error))
  }

  /** Before the k-th arrival every answer was a failure, and none of an index written for a later build. */
  ghost predicate NothingBefore(arrivals: seq<Answer>, k: int) {
    0 <= k < |arrivals| && forall j | 0 <= j < k :: arrivals[j].outcome.Err? && !IsTooNew(arrivals[j].outcome.error)
  }

  ghost predicate Wins(arrivals: seq<Answer>, k: int) {
    NothingBefore(arrivals, k) && arrivals[k].outcome.Ok?
  }

  ghost predicate StopsTooNew(arrivals: seq<Answer>, k: int) {
    NothingBefore(arrivals, k) && arrivals[k].outcome.Err? && IsTooNew(arrivals[k].outcome.error)
  }

  method RaceManifest(mirrors: seq<Mirror>, arrivals: seq<Answer>) returns (r: Result<Fetched, Error>)
    requires Complete(|UsableMirrors(mirrors)|, arrivals)
    ensures UsableMirrors(mirrors) == [] ==> r == Err(Fault("no usable mirror is configured"))
    ensures UsableMirrors(mirrors) != [] ==>
              forall k | FirstDecisive(arrivals, k) :: r == Conclusion(UsableMirrors(mirrors), arrivals[k])
    ensures UsableMirrors(mirrors) != [] && (forall a | a in arrivals :: !Decisive(a.outcome)) ==>
              r == Err(MirrorFailure("no mirror could be reached", Reasons(UsableMirrors(mirrors), arrivals)))
  {
    var usable: seq<Mirror> := [];
    for i := 0 to |mirrors|
      invariant usable == UsableMirrors(mirrors[..i])
    {
      assert mirrors[..i + 1][..i] == mirrors[..i];
      if mirrors[i].Valid() {
        usable := usable + [mirrors[i]];
      }
    }
    assert mirrors[..|mirrors|] == mirrors;
    if |usable| == 0 {
      return Err(Fault("no usable mirror is configured"));
    }
    var reasons: seq<Reason> := [];
    for i := 0 to |usable|
      invariant i <= |arrivals|
      invariant forall j | 0 <= j < i :: !Decisive(arrivals[j].outcome)
      invariant reasons == Reasons(usable, arrivals[..i])
    {
      assert i < |arrivals|;
      var got := arrivals[i];
      if got.outcome.Ok? {
        var order := OrderFrom(usable, usable[got.sender]);
        return Ok(Fetched(got.outcome.value, usable[got.sender], order));
      }
      if IsTooNew(got.outcome.error) {
        return Err(got.outcome.error);
      }
      reasons := reasons + [Reason(usable[got.sender].name, got.outcome.error)];
    }
    assert forall k :: !FirstDecisive(arrivals, k) || k >= |usable|;
    CountedSenders(|usable|, arrivals);
    assert arrivals[..|usable|] == arrivals;
    r := Err(MirrorFailure("no mirror could be reached", reasons));
  }

  lemma {:induction false} UpTo(n: nat) returns (all: set<nat>)
    ensures |all| == n && forall i: nat :: i in all <==> i < n
  {
    if n == 0 {
      all := {};
    } else {
      all := UpTo(n - 1);
      all := all + {n - 1};
    }
  }

  lemma {:induction false} SubsetSize(a: set<nat>, b: set<nat>)
    requires a <= b
    ensures |a| <= |b|
  {
    if a != {} {
      var x :| x in a;
      SubsetSize(a - {x}, b - {x});
    }
  }

  lemma CountedSenders(n: nat, arrivals: seq<Answer>)
    requires DistinctSenders(arrivals) && forall a | a in arrivals :: a.sender < n
    ensures |arrivals| <= n
    ensures |arrivals| == n ==> forall j: nat | j < n :: j in SendersOf(arrivals)
  {
    CountSenders(arrivals);
    var all := UpTo(n);
    SubsetSize(SendersOf(arrivals), all);
    forall j: nat | |arrivals| == n && j < n ensures j in SendersOf(arrivals) {
      if j !in SendersOf(arrivals) {
        SubsetSize(SendersOf(arrivals), all - {j});
      }
    }
  }

  /** When no answer decides the race, every usable mirror is named by exactly one reason. */
  lemma EveryMirrorNamedOnce(usable: seq<Mirror>, arrivals: seq<Answer>, j: nat)
    requires forall a | a in arrivals :: a.sender < |usable| && !Decisive(a.outcome)
    requires Complete(|usable|, arrivals) && j < |usable|
    ensures exists k ::
              0 <= k < |arrivals| && arrivals[k].sender == j && Reasons(usable, arrivals)[k].mirror == usable[j].name &&
              forall i | 0 <= i < |arrivals| && i != k :: arrivals[i].sender != j
  {
    CountedSenders(|usable|, arrivals);
    assert j in SendersOf(arrivals);
    var a :| a in arrivals && a.sender == j;
    var k :| 0 <= k < |arrivals| && arrivals[k] == a;
    assert Reasons(usable, arrivals)[k].mirror == usable[j].name;
  }

  lemma {:induction false} SomeAnswerDecides(arrivals: seq<Answer>)
    ensures (exists k :: FirstDecisive(arrivals, k)) || forall a | a in arrivals :: !Decisive(a.outcome)
  {
    hide Decisive;
    if arrivals != [] {
      var init := arrivals[..|arrivals| - 1];
      SomeAnswerDecides(init);
      if k :| FirstDecisive(init, k) {
        assert FirstDecisive(arrivals, k);
      } else if Decisive(arrivals[|arrivals| - 1].outcome) {
        assert FirstDecisive(arrivals, |arrivals| - 1);
      }
    }
  }

  /** How a race over usable mirrors comes out, arrival by arrival. */
  ghost predicate RacedAs(usable: seq<Mirror>, arrivals: seq<Answer>, r: Result<Fetched, Error>)
    requires forall a | a in arrivals :: a.sender < |usable|
  {
    (r.Ok? <==> exists k :: Wins(arrivals, k)) &&
    (forall k | Wins(arrivals, k) ::
       var winner := usable[arrivals[k].sender]; r == Ok(Fetched(arrivals[k].outcome.value, winner, Order(usable, winner)))) &&
    (forall k | StopsTooNew(arrivals, k) :: r == Err(arrivals[k].outcome.error))
  }

  /** The first answer that is an index wins, unless one written for a later build came before it. */
  lemma RaceDecides(mirrors: seq<Mirror>, arrivals: seq<Answer>, r: Result<Fetched, Error>)
    requires Complete(|UsableMirrors(mirrors)|, arrivals) && UsableMirrors(mirrors) != []
    requires forall k | FirstDecisive(arrivals, k) :: r == Conclusion(UsableMirrors(mirrors), arrivals[k])
    requires (forall a | a in arrivals :: !Decisive(a.outcome)) ==> r.Err?
    ensures RacedAs(UsableMirrors(mirrors), arrivals, r)
  {
    hide UsableMirrors, IsTooNew, Order;
    SomeAnswerDecides(arrivals);
    forall k | Wins(arrivals, k) || StopsTooNew(arrivals, k) ensures FirstDecisive(arrivals, k) {
    }
    if k :| FirstDecisive(arrivals, k) {
      assert arrivals[k].outcome.Ok? ==> Wins(arrivals, k);
    }
  }

  /** A race over usable indexes that succeeds names a usable mirror, first in its order. */
  lemma RaceAnswers(mirrors: seq<Mirror>, arrivals: seq<Answer>, r: Result<Fetched, Error>)
    requires Complete(|UsableMirrors(mirrors)|, arrivals)
    requires forall a | a in arrivals && a.outcome.Ok? :: Usable(a.outcome.value)
    requires UsableMirrors(mirrors) == [] ==> r.Err?
    requires forall k | FirstDecisive(arrivals, k) && UsableMirrors(mirrors) != [] ::
               r == Conclusion(UsableMirrors(mirrors), arrivals[k])
    requires (forall a | a in arrivals :: !Decisive(a.outcome)) ==> r.Err?
    ensures r.Ok? ==> Usable(r.value.manifest) && r.value.mirror.Valid() && r.value.mirror in r.value.order
  {
    hide Usable;
    SomeAnswerDecides(arrivals);
    if r.Ok? {
      var k :| FirstDecisive(arrivals, k);
      assert arrivals[k] in arrivals;
      UsableAreValid(mirrors);
      assert r.value.order[0] == r.value.mirror;
    }
  }

  lemma {:induction false} UsableAreValid(mirrors: seq<Mirror>)
    ensures forall m | m in UsableMirrors(mirrors) :: m.Valid()
  {
    if mirrors != [] {
      UsableAreValid(mirrors[..|mirrors| - 1]);
    }
  }

  lemma {:induction false} AllUsable(mirrors: seq<Mirror>)
    requires forall m | m in mirrors :: m.Valid()
    ensures UsableMirrors(mirrors) == mirrors
  {
    if mirrors != [] {
      assert mirrors[|mirrors| - 1] in mirrors;
      AllUsable(mirrors[..|mirrors| - 1]);
    }
  }
}
