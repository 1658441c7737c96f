/** Runtime calls interleaved at every lock section of the registry: who owns each connection, and which is active. */
module RegistryRuns {
  import opened Common
  import opened Registry

  /** Where a runtime call stands, between two of its sections. */
  datatype Thread =
    | Dialling(id: int)
    | Dialled(id: int, conn: nat)
    | Replacing(id: int, previous: Option<nat>)
    | Activating(id: int)
    | Taken(removed: Option<nat>)
    | Checking
    | Listing
    | Choosing(ids: seq<int>)
    | ClosingAll(conns: seq<nat>)
    | TestDialling
    | Testing(conn: nat)

  /** `dialled` connections have been made so far, numbered from 0. */
  datatype System = System(core: Core, threads: map<nat, Thread>, dialled: nat, closed: seq<nat>)

  const START := System(Core(map[], 0), map[], 0, [])

  /** Starting a call, dialling, and one more section of a running call. `order` is how CloseAll read the map. */
  datatype Event =
    | StartConnect(i: nat, id: int)
    | StartTest(i: nat)
    | StartRemove(i: nat, id: int)
    | StartCloseAll(i: nat, order: seq<nat>)
    | Dial(i: nat, ok: bool)
    | Advance(i: nat, ids: seq<int>)

  function With(s: System, i: nat, t: Thread): System {
    s.(threads := s.threads[i := t])
  }

  function Without(s: System, i: nat): System {
    s.(threads := s.threads - {i})
  }

  function CloseOne(s: System, conn: Option<nat>): System {
    if conn.Some? then s.(closed := s.closed + [conn.value]) else s
  }

  function DoTake(s: System, i: nat, id: int): System {
    var (core, conn) := Take(s.core, id);
    With(s, i, Taken(conn)).(core := core)
  }

  function DoDial(s: System, i: nat, t: Thread, ok: bool): System {
    if !ok then Without(s, i)
    else With(s, i, if t.Dialling? then Dialled(t.id, s.dialled) else Testing(s.dialled)).(dialled := s.dialled + 1)
  }

  function DoStore(s: System, i: nat, id: int, conn: nat): System {
    var (core, previous) := Store(s.core, id, conn);
    With(s, i, Replacing(id, previous)).(core := core)
  }

  function DoChoose(s: System, i: nat, ids: seq<int>): System {
    if ids == [] then Without(s, i)
    else
      var (core, ok) := Activate(s.core, ids[0]);
      (if ok then Without(s, i) else With(s, i, Choosing(ids[1..]))).(core := core)
  }

  function DoAdvance(s: System, i: nat, t: Thread, ids: seq<int>): System
    requires !t.Dialling? && !t.TestDialling?
  {
    match t
    case Dialled(id, conn) => DoStore(s, i, id, conn)
    case Replacing(id, previous) => With(CloseOne(s, previous), i, Activating(id))
    case Activating(id) => Without(s, i).(core := Activate(s.core, id).0)
    case Taken(conn) => With(CloseOne(s, conn), i, Checking)
    case Checking => if ActiveOf(s.core) != 0 then Without(s, i) else With(s, i, Listing)
    case Listing => With(s, i, Choosing(ids))
    case Choosing(left) => DoChoose(s, i, left)
    case ClosingAll(conns) =>
      if conns == [] then Without(s, i) else With(CloseOne(s, Some(conns[0])), i, ClosingAll(conns[1..]))
    case Testing(conn) => Without(CloseOne(s, Some(conn)), i)
  }

  ghost predicate Ready(s: System, event: Event) {
    match event
    case StartConnect(i, id) => i !in s.threads && id > 0
    case StartTest(i) => i !in s.threads
    case StartRemove(i, _) => i !in s.threads
    case StartCloseAll(i, order) => i !in s.threads && Enumerates(order, s.core.conns)
    case Dial(i, _) => i in s.threads && (s.threads[i].Dialling? || s.threads[i].TestDialling?)
    case Advance(i, ids) =>
      i in s.threads && !s.threads[i].Dialling? && !s.threads[i].TestDialling? &&
      (s.threads[i].Listing? ==> Lists(ids, s.core))
  }

  ghost function Step(s: System, event: Event): Option<System> {
    if !Ready(s, event) then None
    else match event
      case StartConnect(i, id) => Some(With(s, i, Dialling(id)))
      case StartTest(i) => Some(With(s, i, TestDialling))
      case StartRemove(i, id) => Some(DoTake(s, i, id))
      case StartCloseAll(i, order) => Some(With(s, i, ClosingAll(order)).(core := Core(map[], 0)))
      case Dial(i, ok) => Some(DoDial(s, i, s.threads[i], ok))
      case Advance(i, ids) => Some(DoAdvance(s, i, s.threads[i], ids))
  }

  ghost function Run(events: seq<Event>): Option<System> {
    if events == [] then Some(START)
    else match Run(events[..|events| - 1])
      case None => None
      case Some(before) => Step(before, events[|events| - 1])
  }

  // ---- Ownership ----------------------------------------------------------------------------------

  /** The connections a call in progress still has to store or close. */
  function Holds(t: Thread): set<nat> {
    match t
    case Dialled(_, conn) => {conn}
    case Replacing(_, previous) => if previous.Some? then {previous.value} else {}
    case Taken(conn) => if conn.Some? then {conn.value} else {}
    case ClosingAll(conns) => set conn | conn in conns
    case Testing(conn) => {conn}
    case _ => {}
  }

  datatype Place = HeldBy(i: nat) | StoredUnder(id: int) | Closed

  ghost predicate At(s: System, conn: nat, place: Place) {
    match place
    case HeldBy(i) => i in s.threads && conn in Holds(s.threads[i])
    case StoredUnder(id) => id in s.core.conns && s.core.conns[id] == conn
    case Closed => conn in s.closed
  }

  /** `place` says where every dialled connection is: there, and nowhere else. */
  ghost predicate Placed(s: System, place: map<nat, Place>) {
    (forall conn, p :: At(s, conn, p) <==> conn in place && place[conn] == p) &&
    (forall conn: nat :: conn in place <==> conn < s.dialled) &&
    Distinct(s.closed) &&
    (forall i | i in s.threads && s.threads[i].ClosingAll? :: Distinct(s.threads[i].conns))
  }

  ghost predicate Distinct(conns: seq<nat>) {
    forall j, k | 0 <= j < k < |conns| :: conns[j] != conns[k]
  }

  function Gathered(place: map<nat, Place>, i: nat): map<nat, Place> {
    map conn | conn in place :: if place[conn].StoredUnder? then HeldBy(i) else place[conn]
  }

  ghost predicate OthersStay(s: System, t: System, i: nat) {
    forall j | j != i :: (j in t.threads <==> j in s.threads) && (j in t.threads ==> t.threads[j] == s.threads[j])
  }

  /** What call `i` holds, nothing when it is over. */
  ghost function Holding(s: System, i: nat): set<nat> {
    if i in s.threads then Holds(s.threads[i]) else {}
  }

  /** A section that neither takes, stores nor closes a connection. */
  lemma StaysPut(s: System, t: System, i: nat, place: map<nat, Place>)
    requires Placed(s, place) && OthersStay(s, t, i) && Holding(s, i) == Holding(t, i)
    requires t.core.conns == s.core.conns && t.dialled == s.dialled && t.closed == s.closed
    requires i in t.threads && t.threads[i].ClosingAll? ==> Distinct(t.threads[i].conns)
    ensures Placed(t, place)
  {
    hide Holds;
    forall conn, p ensures At(t, conn, p) <==> conn in place && place[conn] == p {
      assert At(t, conn, p) <==> At(s, conn, p);
    }
  }

  /** A call closes the one connection it held, or the first of those it collected. */
  lemma Closes(s: System, t: System, i: nat, closing: nat, place: map<nat, Place>)
    requires Placed(s, place) && OthersStay(s, t, i) && closing in Holding(s, i) && Holding(t, i) == Holding(s, i) - {closing}
    requires t.core == s.core && t.dialled == s.dialled && t.closed == s.closed + [closing]
    requires i in t.threads && t.threads[i].ClosingAll? ==> Distinct(t.threads[i].conns)
    ensures Placed(t, place[closing := Closed])
  {
    hide Holds;
    assert At(s, closing, HeldBy(i));
    assert !At(s, closing, Closed);
    forall conn, p ensures At(t, conn, p) <==> conn in place[closing := Closed] && place[closing := Closed][conn] == p {
      assert At(s, conn, p) <==> conn in place && place[conn] == p;
      match p
      case HeldBy(j) =>
        assert At(t, conn, p) <==> conn in Holding(t, j);
        assert At(s, conn, p) <==> conn in Holding(s, j);
      case StoredUnder(_) =>
      case Closed =>
        assert t.closed[|s.closed|] == closing;
    }
  }

  lemma DialMoves(s: System, i: nat, ok: bool, place: map<nat, Place>)
    requires Placed(s, place) && Ready(s, Dial(i, ok)) && ok
    ensures Placed(DoDial(s, i, s.threads[i], ok), place[s.dialled := HeldBy(i)])
  {
    var t, after := DoDial(s, i, s.threads[i], ok), place[s.dialled := HeldBy(i)];
    forall conn, p ensures At(t, conn, p) <==> conn in after && after[conn] == p {
      assert At(s, conn, p) <==> conn in place && place[conn] == p;
      match p
      case HeldBy(j) => assert At(t, conn, p) <==> conn in Holding(t, j);
      case StoredUnder(_) =>
      case Closed =>
    }
  }

  /** Where connections are once `conn`, held by call `i`, is stored under `id`. */
  function Stored(core: Core, i: nat, id: int, conn: nat, place: map<nat, Place>): map<nat, Place> {
    (if id in core.conns then place[core.conns[id] := HeldBy(i)] else place)[conn := StoredUnder(id)]
  }

  lemma StoreMoves(s: System, i: nat, id: int, dialled: nat, place: map<nat, Place>)
    requires Placed(s, place) && i in s.threads && s.threads[i] == Dialled(id, dialled)
    ensures Placed(DoStore(s, i, id, dialled), Stored(s.core, i, id, dialled, place))
  {
    var t, after := DoStore(s, i, id, dialled), Stored(s.core, i, id, dialled, place);
    assert At(s, dialled, HeldBy(i));
    if id in s.core.conns {
      assert At(s, s.core.conns[id], StoredUnder(id));
    }
    forall conn, p ensures At(t, conn, p) <==> conn in after && after[conn] == p {
      assert At(s, conn, p) <==> conn in place && place[conn] == p;
      match p
      case HeldBy(j) => assert At(t, conn, p) <==> conn in Holding(t, j);
      case StoredUnder(other) => assert At(s, dialled, p) <==> place[dialled] == p;
      case Closed =>
    }
  }

  lemma TakeMoves(s: System, i: nat, id: int, place: map<nat, Place>)
    requires Placed(s, place) && i !in s.threads
    ensures Placed(DoTake(s, i, id), if id in s.core.conns then place[s.core.conns[id] := HeldBy(i)] else place)
  {
    var t := DoTake(s, i, id);
    var after := if id in s.core.conns then place[s.core.conns[id] := HeldBy(i)] else place;
    if id in s.core.conns {
      assert At(s, s.core.conns[id], StoredUnder(id));
    }
    forall conn, p ensures At(t, conn, p) <==> conn in after && after[conn] == p {
      assert At(s, conn, p) <==> conn in place && place[conn] == p;
      match p
      case HeldBy(j) => assert At(t, conn, p) <==> conn in Holding(t, j);
      case StoredUnder(other) =>
      case Closed =>
    }
  }

  lemma GatherMoves(s: System, i: nat, order: seq<nat>, place: map<nat, Place>)
    requires Placed(s, place) && i !in s.threads && Enumerates(order, s.core.conns)
    ensures Placed(With(s, i, ClosingAll(order)).(core := Core(map[], 0)), Gathered(place, i))
  {
    var t, after := With(s, i, ClosingAll(order)).(core := Core(map[], 0)), Gathered(place, i);
    forall conn, p ensures At(t, conn, p) <==> conn in after && after[conn] == p {
      assert At(s, conn, p) <==> conn in place && place[conn] == p;
      if conn in order {
        var id :| id in s.core.conns && s.core.conns[id] == conn;
        assert At(s, conn, StoredUnder(id));
      } else if conn in place {
        assert At(s, conn, place[conn]);
      }
      match p
      case HeldBy(j) => assert At(t, conn, p) <==> conn in Holding(t, j);
      case StoredUnder(_) =>
      case Closed =>
    }
  }

  /** A section moves each connection by its own part of the hand-over, and none to two places. */
  lemma AdvanceMoves(s: System, i: nat, ids: seq<int>, place: map<nat, Place>) returns (after: map<nat, Place>)
    requires Placed(s, place) && Ready(s, Advance(i, ids))
    ensures Placed(DoAdvance(s, i, s.threads[i], ids), after)
  {
    hide At;
    var thread, t := s.threads[i], DoAdvance(s, i, s.threads[i], ids);
    if thread.Dialled? {
      StoreMoves(s, i, thread.id, thread.conn, place);
      return Stored(s.core, i, thread.id, thread.conn, place);
    }
    var closing := match thread
      case Replacing(_, previous) => previous
      case Taken(conn) => conn
      case ClosingAll(conns) => if conns == [] then None else Some(conns[0])
      case Testing(conn) => Some(conn)
      case _ => None;
    if closing.Some? {
      Closes(s, t, i, closing.value, place);
      after := place[closing.value := Closed];
    } else {
      StaysPut(s, t, i, place);
      after := place;
    }
  }

  lemma StepMoves(s: System, event: Event, place: map<nat, Place>) returns (after: map<nat, Place>)
    requires Placed(s, place) && Ready(s, event)
    ensures Placed(Step(s, event).value, after)
  {
    hide At;
    var t := Step(s, event).value;
    after := place;
    match event
    case StartConnect(i, _) => StaysPut(s, t, i, place);
    case StartTest(i) => StaysPut(s, t, i, place);
    case StartRemove(i, id) =>
      TakeMoves(s, i, id, place);
      after := if id in s.core.conns then place[s.core.conns[id] := HeldBy(i)] else place;
    case StartCloseAll(i, order) =>
      GatherMoves(s, i, order, place);
      after := Gathered(place, i);
    case Dial(i, ok) =>
      if ok {
        DialMoves(s, i, ok, place);
        after := place[s.dialled := HeldBy(i)];
      } else {
        StaysPut(s, t, i, place);
      }
    case Advance(i, ids) => after := AdvanceMoves(s, i, ids, place);
  }

  lemma {:induction false} RunPlaces(events: seq<Event>) returns (place: map<nat, Place>)
    requires Run(events).Some?
    ensures Placed(Run(events).value, place)
  {
    if events == [] {
      place := map[];
    } else {
      place := RunPlaces(events[..|events| - 1]);
      place := StepMoves(Run(events[..|events| - 1]).value, events[|events| - 1], place);
    }
  }

  /** In every interleaving each connection that was dialled is in exactly one place - held by one call, stored under
      one ID, or closed - and none is closed twice. */
  lemma OnePlaceEach(events: seq<Event>, conn: nat)
    requires Run(events).Some?
    ensures var s := Run(events).value;
            Distinct(s.closed) &&
            (conn < s.dialled <==> exists p :: At(s, conn, p)) &&
            forall p, q | At(s, conn, p) && At(s, conn, q) :: p == q
  {
    hide At;
    var place := RunPlaces(events);
    if conn < Run(events).value.dialled {
      assert At(Run(events).value, conn, place[conn]);
    }
  }

  /** Once no call is in progress nothing has leaked: every connection is either open or closed. */
  lemma NothingLeaks(events: seq<Event>, conn: nat)
    requires Run(events).Some? && Run(events).value.threads == map[] && conn < Run(events).value.dialled
    ensures var s := Run(events).value;
            conn in s.closed <==> !exists id :: At(s, conn, StoredUnder(id))
  {
    var s := Run(events).value;
    OnePlaceEach(events, conn);
    var p :| At(s, conn, p);
    if conn in s.closed {
      assert At(s, conn, Closed);
    }
  }

  /** A test of a profile that calls beside it know nothing of. */
  ghost predicate IsTest(s: System, event: Event) {
    event.StartTest? || (event.i in s.threads && (s.threads[event.i].TestDialling? || s.threads[event.i].Testing?))
  }

  /** In every interleaving a section of a test leaves the registry and every other call as they were; the connection it
      dialled is stored under no ID and known to no other call, and its last section closes that connection, which
      nothing closed before. */
  lemma TestLeavesRegistry(events: seq<Event>, event: Event)
    requires Run(events).Some? && Ready(Run(events).value, event) && IsTest(Run(events).value, event)
    ensures var s, t, i := Run(events).value, Run(events + [event]).value, event.i;
            Run(events + [event]).Some? && t.core == s.core && OthersStay(s, t, i) &&
            (event.Advance? ==>
              i !in t.threads && |t.closed| == |s.closed| + 1 && t.closed[..|s.closed|] == s.closed &&
              At(s, t.closed[|s.closed|], HeldBy(i)) && forall p | At(s, t.closed[|s.closed|], p) :: p == HeldBy(i)) &&
            (!event.Advance? ==>
              t.closed == s.closed &&
              forall conn | conn in Holding(t, i) :: At(t, conn, HeldBy(i)) && forall p | At(t, conn, p) :: p == HeldBy(i))
  {
    var s, i := Run(events).value, event.i;
    assert (events + [event])[..|events|] == events;
    TestStep(s, event);
    hide Step, Run, At;
    OnePlaceOnly(events);
    OnePlaceOnly(events + [event]);
    var t := Run(events + [event]).value;
    if event.Advance? {
      AtHolder(s, s.threads[i].conn, i);
    } else {
      forall conn | conn in Holding(t, i) ensures At(t, conn, HeldBy(i)) {
        AtHolder(t, conn, i);
      }
    }
  }

  lemma AtHolder(s: System, conn: nat, i: nat)
    requires conn in Holding(s, i)
    ensures At(s, conn, HeldBy(i))
  {
    hide Holds;
  }

  lemma OnePlaceOnly(events: seq<Event>)
    requires Run(events).Some?
    ensures forall conn, p, q | At(Run(events).value, conn, p) && At(Run(events).value, conn, q) :: p == q
  {
    hide At, Run;
    var place := RunPlaces(events);
  }

  /** What the sections of a test do. */
  lemma TestStep(s: System, event: Event)
    requires Ready(s, event) && IsTest(s, event)
    ensures var t, i := Step(s, event).value, event.i;
            t.core == s.core && OthersStay(s, t, i) &&
            (event.Advance? ==> i !in t.threads && s.threads[i].Testing? && t.closed == s.closed + [s.threads[i].conn]) &&
            (!event.Advance? ==> t.closed == s.closed)
  {
  }

  // ---- The active connection ----------------------------------------------------------------------

  /** A call that will still see to it, from where it stands, that something is active if `id` stays open. */
  ghost predicate Covers(t: Thread, id: int) {
    match t
    case Replacing(own, _) => own == id
    case Activating(own) => own == id
    case Taken(_) => true
    case Checking => true
    case Listing => true
    case Choosing(ids) => id in ids
    case _ => false
  }

  /** Profile IDs are positive; 0 stands for no profile. */
  ghost predicate Named(t: Thread) {
    match t
    case Dialling(id) => id > 0
    case Dialled(id, _) => id > 0
    case _ => true
  }

  /** The active ID is open, or some call in progress will still see to every open one. */
  ghost predicate Looked(s: System) {
    (s.core.activeID == 0 || s.core.activeID in s.core.conns) &&
    (forall id | id in s.core.conns :: id > 0) &&
    (forall i | i in s.threads :: Named(s.threads[i])) &&
    (s.core.activeID == 0 ==> forall id | id in s.core.conns :: exists i :: i in s.threads && Covers(s.threads[i], id))
  }

  /** Replacing call `i` by one that covers no less of what is open keeps everything covered. */
  lemma StillLooked(s: System, t: System, i: nat)
    requires Looked(s) && OthersStay(s, t, i) && t.core == s.core
    requires i in t.threads ==> Named(t.threads[i])
    requires i in s.threads ==> forall id | id in s.core.conns && Covers(s.threads[i], id) ::
               i in t.threads && Covers(t.threads[i], id)
    ensures Looked(t)
  {
    hide Covers, Named;
    if t.core.activeID == 0 {
      forall id | id in t.core.conns ensures exists j :: j in t.threads && Covers(t.threads[j], id) {
        var j :| j in s.threads && Covers(s.threads[j], id);
        assert j in t.threads && Covers(t.threads[j], id);
      }
    }
  }

  /** A section that changes the registry leaves something active, or covers what the others do not. */
  lemma StoreLooked(s: System, i: nat, id: int, conn: nat)
    requires Looked(s) && i in s.threads && s.threads[i] == Dialled(id, conn)
    ensures Looked(DoStore(s, i, id, conn))
  {
    var t := DoStore(s, i, id, conn);
    if t.core.activeID == 0 {
      forall open | open in t.core.conns ensures exists j :: j in t.threads && Covers(t.threads[j], open) {
        if open == id {
          assert i in t.threads && Covers(t.threads[i], open);
        } else {
          var j :| j in s.threads && Covers(s.threads[j], open);
          assert j in t.threads && Covers(t.threads[j], open);
        }
      }
    }
  }

  lemma TakeLooked(s: System, i: nat, id: int)
    requires Looked(s) && i !in s.threads
    ensures Looked(DoTake(s, i, id))
  {
    var t := DoTake(s, i, id);
    assert i in t.threads && forall open :: Covers(t.threads[i], open);
  }

  /** Choosing an ID either makes it active or finds it closed, and then the rest is still to be tried. */
  lemma ChooseLooked(s: System, i: nat, ids: seq<int>)
    requires Looked(s) && i in s.threads && s.threads[i] == Choosing(ids)
    ensures Looked(DoChoose(s, i, ids))
  {
    var t := DoChoose(s, i, ids);
    if ids == [] || ids[0] !in s.core.conns {
      StillLooked(s, t, i);
    }
  }

  lemma AdvanceLooked(s: System, i: nat, ids: seq<int>)
    requires Looked(s) && Ready(s, Advance(i, ids))
    ensures Looked(DoAdvance(s, i, s.threads[i], ids))
  {
    var thread, t := s.threads[i], DoAdvance(s, i, s.threads[i], ids);
    match thread
    case Dialled(id, conn) => StoreLooked(s, i, id, conn);
    case Choosing(left) => ChooseLooked(s, i, left);
    case Activating(id) =>
      if id !in s.core.conns {
        StillLooked(s, t, i);
      }
    case Checking =>
      if ActiveOf(s.core) == 0 {
        StillLooked(s, t, i);
      }
    case Listing => StillLooked(s, t, i);
    case Replacing(_, _) => StillLooked(s, t, i);
    case Taken(_) => StillLooked(s, t, i);
    case ClosingAll(_) => StillLooked(s, t, i);
    case Testing(_) => StillLooked(s, t, i);
  }

  lemma StepLooked(s: System, event: Event)
    requires Looked(s) && Ready(s, event)
    ensures Looked(Step(s, event).value)
  {
    match event
    case StartRemove(i, id) => TakeLooked(s, i, id);
    case StartCloseAll(i, _) =>
    case Advance(i, ids) => AdvanceLooked(s, i, ids);
    case StartConnect(i, _) => StillLooked(s, Step(s, event).value, i);
    case StartTest(i) => StillLooked(s, Step(s, event).value, i);
    case Dial(i, _) => StillLooked(s, Step(s, event).value, i);
  }

  lemma {:induction false} RunLooked(events: seq<Event>)
    requires Run(events).Some?
    ensures Looked(Run(events).value)
  {
    if events != [] {
      RunLooked(events[..|events| - 1]);
      StepLooked(Run(events[..|events| - 1]).value, events[|events| - 1]);
    }
  }

  /** In every interleaving the active ID is 0 or an open one, and whenever no call is in progress some connection is
      active exactly when some connection is open. */
  lemma ActiveWhileOpen(events: seq<Event>)
    requires Run(events).Some?
    ensures var s := Run(events).value;
            (s.core.activeID == 0 || s.core.activeID in s.core.conns) &&
            (s.threads == map[] ==> (ActiveOf(s.core) != 0 <==> s.core.conns != map[]))
  {
    RunLooked(events);
    var s := Run(events).value;
    if s.threads == map[] && s.core.activeID == 0 {
      forall id: int ensures id !in s.core.conns {
        assert !exists i :: i in s.threads;
      }
    }
  }

  lemma {:induction false} ListOf(open: set<int>) returns (ids: seq<int>)
    ensures Ascending(ids) && forall id :: id in ids <==> id in open
  {
    if open == {} {
      ids := [];
    } else {
      SomeID(open);
      var id: int :| id in open;
      var rest := ListOf(open - {id});
      ids := InsertSorted(rest, id);
    }
  }

  /** No call waits for another: every call in progress can take its next section at any moment. */
  lemma NobodyWaits(events: seq<Event>, i: nat) returns (next: Event)
    requires Run(events).Some? && i in Run(events).value.threads
    ensures next.i == i && (next.Dial? || next.Advance?) && Step(Run(events).value, next).Some?
  {
    var s := Run(events).value;
    if s.threads[i].Dialling? || s.threads[i].TestDialling? {
      next := Dial(i, true);
    } else {
      var ids := ListOf(s.core.conns.Keys);
      next := Advance(i, ids);
    }
  }

  // ---- Calls on their own ---------------------------------------------------------------------------

  lemma RunThen(events: seq<Event>, s: System, event: Event, t: System) returns (more: seq<Event>)
    requires Run(events) == Some(s) && Step(s, event) == Some(t)
    ensures more == events + [event] && Run(more) == Some(t)
  {
    hide Step;
    more := events + [event];
    assert more[..|events|] == events;
  }

  /** A call that nothing interrupts, from any state: what `t` is after it, when the call is over. */
  ghost predicate Over(s: System, t: System, core: Core, closing: seq<nat>) {
    t.core == core && t.closed == s.closed + closing && t.threads == s.threads
  }

  /** Connecting makes the profile the active one and closes what was open under its ID. */
  lemma ConnectAlone(events: seq<Event>, s: System, i: nat, id: int) returns (more: seq<Event>, t: System)
    requires Run(events) == Some(s) && i !in s.threads && id > 0
    ensures Run(more) == Some(t) && events <= more
    ensures Over(s, t, Core(s.core.conns[id := s.dialled], id), if id in s.core.conns then [s.core.conns[id]] else [])
  {
    hide Run;
    var previous := if id in s.core.conns then Some(s.core.conns[id]) else None;
    var s2;
    more, s2 := Dials(events, s, i, id);
    var s3 := With(s2, i, Replacing(id, previous)).(core := s.core.(conns := s.core.conns[id := s.dialled]));
    var s4 := With(CloseOne(s3, previous), i, Activating(id));
    t := Without(s4, i).(core := Core(s.core.conns[id := s.dialled], id));
    more := RunThen(more, s2, Advance(i, []), s3);
    more := RunThen(more, s3, Advance(i, []), s4);
    more := RunThen(more, s4, Advance(i, []), t);
    assert t.threads == s.threads;
  }

  lemma Dials(events: seq<Event>, s: System, i: nat, id: int) returns (more: seq<Event>, t: System)
    requires Run(events) == Some(s) && i !in s.threads && id > 0
    ensures Run(more) == Some(t) && events <= more
    ensures t == s.(threads := s.threads[i := Dialled(id, s.dialled)], dialled := s.dialled + 1)
  {
    hide Run;
    var s1 := With(s, i, Dialling(id));
    t := With(s1, i, Dialled(id, s.dialled)).(dialled := s.dialled + 1);
    more := RunThen(events, s, StartConnect(i, id), s1);
    more := RunThen(more, s1, Dial(i, true), t);
    assert t.threads == s.threads[i := Dialled(id, s.dialled)];
  }

  /** A dial that fails leaves everything as it was. */
  lemma FailedConnectAlone(events: seq<Event>, s: System, i: nat, id: int) returns (more: seq<Event>, t: System)
    requires Run(events) == Some(s) && i !in s.threads && id > 0
    ensures Run(more) == Some(t) && events <= more && Over(s, t, s.core, [])
  {
    hide Run;
    var s1 := With(s, i, Dialling(id));
    t := Without(s1, i);
    more := RunThen(events, s, StartConnect(i, id), s1);
    more := RunThen(more, s1, Dial(i, false), t);
    assert t.threads == s.threads && s.closed + [] == s.closed;
  }

  ghost predicate Smallest(id: int, conns: map<int, nat>) {
    id in conns && forall other | other in conns :: id <= other
  }

  /** Removing closes what is open under the ID; the active connection, if that was it, is the smallest one left. */
  lemma RemoveAlone(events: seq<Event>, s: System, i: nat, id: int) returns (more: seq<Event>, t: System)
    requires Run(events) == Some(s) && i !in s.threads
    ensures Run(more) == Some(t) && events <= more
    ensures Over(s, t, t.core, if id in s.core.conns then [s.core.conns[id]] else [])
    ensures t.core.conns == s.core.conns - {id}
    ensures s.core.activeID != id && s.core.activeID != 0 ==> t.core.activeID == s.core.activeID
    ensures s.core.activeID == id || s.core.activeID == 0 ==>
              if t.core.conns == map[] then t.core.activeID == 0 else Smallest(t.core.activeID, t.core.conns)
  {
    RunLooked(events);
    hide Run, Looked;
    ActiveIsOpen(s, id);
    var s2;
    more, s2 := Removes(events, s, i, id);
    if ActiveOf(s2.core) != 0 {
      t := Without(s2, i);
      more := RunThen(more, s2, Advance(i, []), t);
    } else {
      more, t := HandOver(more, s2, i);
    }
    assert t.threads == s.threads;
  }

  lemma Removes(events: seq<Event>, s: System, i: nat, id: int) returns (more: seq<Event>, t: System)
    requires Run(events) == Some(s) && i !in s.threads
    ensures Run(more) == Some(t) && events <= more && t.core == Take(s.core, id).0 && t.threads == s.threads[i := Checking]
    ensures t.closed == s.closed + if id in s.core.conns then [s.core.conns[id]] else []
  {
    hide Run;
    var conn := if id in s.core.conns then Some(s.core.conns[id]) else None;
    var s1 := DoTake(s, i, id);
    t := With(CloseOne(s1, conn), i, Checking);
    more := RunThen(events, s, StartRemove(i, id), s1);
    more := RunThen(more, s1, Advance(i, []), t);
  }

  lemma ActiveIsOpen(s: System, id: int)
    requires Looked(s)
    ensures ActiveOf(Take(s.core, id).0) == Take(s.core, id).0.activeID
    ensures forall open | open in s.core.conns :: open > 0
  {
  }

  lemma HandOver(events: seq<Event>, s: System, i: nat) returns (more: seq<Event>, t: System)
    requires Run(events) == Some(s) && i in s.threads && s.threads[i] == Checking && ActiveOf(s.core) == 0 == s.core.activeID
    ensures Run(more) == Some(t) && events <= more
    ensures t == Without(s, i).(core := t.core) && t.core.conns == s.core.conns
    ensures if s.core.conns == map[] then t.core.activeID == 0 else Smallest(t.core.activeID, s.core.conns)
  {
    hide Run;
    var ids := ListOf(s.core.conns.Keys);
    var s1, s2 := With(s, i, Listing), With(With(s, i, Listing), i, Choosing(ids));
    t := DoChoose(s2, i, ids);
    more := RunThen(events, s, Advance(i, []), s1);
    more := RunThen(more, s1, Advance(i, ids), s2);
    more := RunThen(more, s2, Advance(i, []), t);
    if ids == [] {
      assert forall id: int :: id !in s.core.conns;
      assert s.core.conns == map[];
    } else {
      assert ids[0] in ids;
      forall other | other in s.core.conns ensures ids[0] <= other {
        assert other in ids;
      }
    }
    assert t.threads == s.threads - {i};
  }

  /** Closing all closes every connection that is open, each once. */
  lemma CloseAllAlone(events: seq<Event>, s: System, i: nat, order: seq<nat>) returns (more: seq<Event>, t: System)
    requires Run(events) == Some(s) && i !in s.threads && Enumerates(order, s.core.conns)
    ensures Run(more) == Some(t) && events <= more && Over(s, t, Core(map[], 0), order)
  {
    hide Run;
    var s1 := With(s, i, ClosingAll(order)).(core := Core(map[], 0));
    more := RunThen(events, s, StartCloseAll(i, order), s1);
    more, t := CloseTaken(more, s1, i, order);
    assert t.threads == s.threads;
  }

  lemma {:induction false} CloseTaken(events: seq<Event>, s: System, i: nat, conns: seq<nat>)
    returns (more: seq<Event>, t: System)
    requires Run(events) == Some(s) && i in s.threads && s.threads[i] == ClosingAll(conns)
    ensures Run(more) == Some(t) && events <= more && t == Without(s, i).(closed := s.closed + conns)
    decreases |conns|
  {
    hide Run;
    if conns == [] {
      t := Without(s, i);
      more := RunThen(events, s, Advance(i, []), t);
      assert s.closed + [] == s.closed;
    } else {
      var s1 := With(CloseOne(s, Some(conns[0])), i, ClosingAll(conns[1..]));
      more := RunThen(events, s, Advance(i, []), s1);
      more, t := CloseTaken(more, s1, i, conns[1..]);
      assert s.closed + [conns[0]] + conns[1..] == s.closed + conns;
      assert t.threads == s.threads - {i};
    }
  }
}
