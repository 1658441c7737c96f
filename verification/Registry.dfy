/** Open connections by profile: the registry's sections, the runtime that drives it, and every interleaving. */
module Registry {
  import opened Common

  // ---- Sections under the lock --------------------------------------------------------------------

  /** Connections are named by the order they were dialled in. An active ID of 0 means none. */
  datatype Core = Core(conns: map<int, nat>, activeID: int)

  function Store(c: Core, id: int, conn: nat): (Core, Option<nat>) {
    (c.(conns := c.conns[id := conn]), if id in c.conns then Some(c.conns[id]) else None)
  }

  function Take(c: Core, id: int): (Core, Option<nat>) {
    (Core(c.conns - {id}, if c.activeID == id then 0 else c.activeID), if id in c.conns then Some(c.conns[id]) else None)
  }

  function Activate(c: Core, id: int): (Core, bool) {
    if id in c.conns then (c.(activeID := id), true) else (c, false)
  }

  function ActiveOf(c: Core): int {
    if c.activeID in c.conns then c.activeID else 0
  }

  ghost predicate Ascending(ids: seq<int>) {
    forall i, j | 0 <= i < j < |ids| :: ids[i] < ids[j]
  }

  /** The open IDs, in order. */
  ghost predicate Lists(ids: seq<int>, c: Core) {
    Ascending(ids) && forall id :: id in ids <==> id in c.conns
  }

  class Registry {
    var conns: map<int, nat>
    var activeID: int
    var closed: seq<nat>  // every Close called on a connection, in order

    function View(): Core
      reads this
    {
      Core(conns, activeID)
    }

    constructor ()
      ensures View() == Core(map[], 0) && closed == []
    {
      conns, activeID, closed := map[], 0, [];
    }

    /** `dialled` is what the driver returned, None when it is unknown or could not connect. */
    method Open(id: int, dialled: Option<nat>) returns (ok: bool)
      modifies this
      ensures ok == dialled.Some?
      ensures !ok ==> View() == old(View()) && closed == old(closed)
      ensures ok ==> View() == Store(old(View()), id, dialled.value).0
      ensures ok ==> closed == old(closed) + if id in old(conns) then [old(conns)[id]] else []
    {
      if dialled.None? {
        return false;
      }
      var previous := if id in conns then Some(conns[id]) else None;
      conns := conns[id := dialled.value];
      if previous.Some? {
        closed := closed + [previous.value];
      }
      ok := true;
    }

    method SetActive(id: int) returns (ok: bool)
      modifies this`activeID
      ensures (View(), ok) == Activate(old(View()), id)
    {
      if id !in conns {
        return false;
      }
      activeID := id;
      ok := true;
    }

    method ActiveID() returns (id: int)
      ensures id == ActiveOf(View())
    {
      if activeID !in conns {
        return 0;
      }
      id := activeID;
    }

    method IDs() returns (ids: seq<int>)
      ensures Lists(ids, View())
    {
      ids := [];
      var left := conns.Keys;
      while left != {}
        invariant left <= conns.Keys && Ascending(ids)
        invariant forall id :: id in ids <==> id in conns && id !in left
        decreases |left|
      {
        SomeID(left);
        var id: int :| id in left;
        left := left - {id};
        ids := InsertSorted(ids, id);
      }
    }

    method Close(id: int)
      modifies this
      ensures View() == Take(old(View()), id).0
      ensures closed == old(closed) + if id in old(conns) then [old(conns)[id]] else []
    {
      var conn := if id in conns then Some(conns[id]) else None;
      conns := conns - {id};
      if activeID == id {
        activeID := 0;
      }
      if conn.Some? {
        closed := closed + [conn.value];
      }
    }

    method CloseAll()
      modifies this
      ensures View() == Core(map[], 0)
      ensures old(closed) <= closed
      ensures Injective(old(conns)) ==> Enumerates(closed[|old(closed)|..], old(conns))
    {
      var all := conns;
      var taken: seq<nat> := [];
      var left := all.Keys;
      while left != {}
        invariant left <= all.Keys && closed == old(closed)
        invariant Injective(all) ==> Enumerates(taken, Except(all, left))
        decreases |left|
      {
        SomeID(left);
        var id: int :| id in left;
        if Injective(all) {
          EnumerateOneMore(taken, all, left, id);
        }
        left := left - {id};
        taken := taken + [all[id]];
      }
      assert Except(all, {}) == all;
      conns := map[];
      activeID := 0;
      assert (closed + taken)[|closed|..] == taken;
      closed := closed + taken;
    }
  }

  function Except(conns: map<int, nat>, left: set<int>): map<int, nat> {
    map id | id in conns && id !in left :: conns[id]
  }

  lemma SomeID(ids: set<int>)
    ensures ids == {} || exists id: int :: id in ids
  {
    if forall id: int :: id !in ids {
      assert ids == {};
    }
  }

  ghost predicate Injective(conns: map<int, nat>) {
    forall a, b | a in conns && b in conns && conns[a] == conns[b] :: a == b
  }

  /** Every stored connection once, in some order. */
  ghost predicate Enumerates(order: seq<nat>, conns: map<int, nat>) {
    (forall i, j | 0 <= i < j < |order| :: order[i] != order[j]) &&
    (forall conn :: conn in order <==> exists id :: id in conns && conns[id] == conn)
  }

  lemma EnumerateOneMore(taken: seq<nat>, conns: map<int, nat>, left: set<int>, id: int)
    requires Injective(conns) && left <= conns.Keys && id in left && Enumerates(taken, Except(conns, left))
    ensures Enumerates(taken + [conns[id]], Except(conns, left - {id}))
  {
    var before, after := Except(conns, left), Except(conns, left - {id});
    assert after == before[id := conns[id]];
    assert conns[id] !in taken;
    forall conn ensures conn in taken + [conns[id]] <==> exists k :: k in after && after[k] == conn {
      if conn == conns[id] {
        assert id in after && after[id] == conn;
      } else if conn in taken {
        var k :| k in before && before[k] == conn;
        assert k in after && after[k] == conn;
      }
    }
  }

  function InsertSorted(ids: seq<int>, id: int): (r: seq<int>)
    requires Ascending(ids) && id !in ids
    ensures Ascending(r) && forall x :: x in r <==> x in ids || x == id
  {
    if ids == [] || id < ids[0] then [id] + ids
    else
      var rest := InsertSorted(ids[1..], id);
      assert forall x :: x in ids <==> x == ids[0] || x in ids[1..];
      assert forall x | x in ids[1..] :: ids[0] < x;
      assert forall x | x in rest :: ids[0] < x;
      assert forall i | 0 <= i < |rest| :: rest[i] in rest;
      [ids[0]] + rest
  }
}
