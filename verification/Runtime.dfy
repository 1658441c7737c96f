/** The runtime that drives the registry one call at a time: connect, remove with hand-over, close all. */
module Runtime {
  import opened Common
  import opened Registry

  /** Between calls: IDs are positive, and something is active exactly when something is open. */
  ghost predicate AtRest(c: Core) {
    (forall id | id in c.conns :: id > 0) && (c.activeID == 0 <==> c.conns == map[]) && (c.activeID == 0 || c.activeID in c.conns)
  }

  ghost predicate IsSmallest(id: int, c: Core) {
    id in c.conns && forall other | other in c.conns :: id <= other
  }

  class Runtime {
    const registry: Registry

    constructor ()
      ensures fresh(registry) && registry.View() == Core(map[], 0) && AtRest(registry.View()) && registry.closed == []
    {
      registry := new Registry();
    }

    /** The profile just opened becomes the active one; what was open under its ID is closed. */
    method Connect(id: int, dialled: Option<nat>) returns (ok: bool)
      requires id > 0 && AtRest(registry.View())
      modifies registry
      ensures AtRest(registry.View()) && ok == dialled.Some?
      ensures !ok ==> registry.View() == old(registry.View()) && registry.closed == old(registry.closed)
      ensures ok ==> registry.View() == Core(old(registry.conns)[id := dialled.value], id)
      ensures ok ==> registry.closed == old(registry.closed) + if id in old(registry.conns) then [old(registry.conns)[id]] else []
    {
      ok := registry.Open(id, dialled);
      if ok {
        ok := registry.SetActive(id);
        assert id in registry.conns;
      }
    }

    /** Closing the active connection hands over to the smallest ID still open; closing another changes nothing else. */
    method Remove(id: int)
      requires AtRest(registry.View())
      modifies registry
      ensures AtRest(registry.View()) && registry.conns == old(registry.conns) - {id}
      ensures old(registry.activeID) != id ==> registry.activeID == old(registry.activeID)
      ensures old(registry.activeID) == id && registry.conns != map[] ==> IsSmallest(registry.activeID, registry.View())
      ensures registry.closed == old(registry.closed) + if id in old(registry.conns) then [old(registry.conns)[id]] else []
    {
      registry.Close(id);
      var active := registry.ActiveID();
      if active != 0 {
        return;
      }
      var ids := registry.IDs();
      var k, handedOver := 0, false;
      while k < |ids| && !handedOver
        invariant 0 <= k <= |ids| && handedOver == (k != 0)
        invariant registry.activeID == if handedOver then ids[0] else 0
        invariant registry.conns == old(registry.conns) - {id}
        invariant registry.closed == old(registry.closed) + if id in old(registry.conns) then [old(registry.conns)[id]] else []
      {
        assert ids[k] in ids;
        handedOver := registry.SetActive(ids[k]);
        k := k + 1;
      }
      forall other | other in registry.conns ensures ids != [] && ids[0] <= other {
        assert other in ids;
      }
      assert ids != [] ==> ids[0] in registry.conns;
    }

    method CloseAll()
      modifies registry
      ensures AtRest(registry.View()) && registry.View() == Core(map[], 0)
      ensures old(registry.closed) <= registry.closed
      ensures Injective(old(registry.conns)) ==> Enumerates(registry.closed[|old(registry.closed)|..], old(registry.conns))
    {
      registry.CloseAll();
    }
  }
}
