/** What a connection can do and what it cannot do here: sets that share maps and are never changed in place. */
module Capability {
  import opened StringMaps

  /** A capability set as the program passes it: a list, and two maps it may share with other sets. */
  datatype Capabilities = Capabilities(supported: seq<string>, degraded: StringMap?, caveats: StringMap?)

  /** The set itself: what it lists and what its maps say. */
  datatype Declared = Declared(supported: seq<string>, degraded: map<string, string>, caveats: map<string, string>)

  function View(c: Capabilities): Declared
    reads c.degraded, c.caveats
  {
    Declared(c.supported, Entries(c.degraded), Entries(c.caveats))
  }

  method NewCapabilities(supported: seq<string>) returns (c: Capabilities)
    ensures View(c) == Declared(supported, map[], map[])
  {
    c := Capabilities(supported, null, null);
  }

  method Has(c: Capabilities, capability: string) returns (has: bool)
    ensures has <==> capability in c.supported
  {
    for i := 0 to |c.supported|
      invariant capability !in c.supported[..i]
    {
      if c.supported[i] == capability {
        return true;
      }
    }
    has := false;
  }

  /** The list without one capability, in the same order. */
  function Without(supported: seq<string>, capability: string): (rest: seq<string>)
    ensures forall other :: other in rest <==> other in supported && other != capability
  {
    if supported == [] then []
    else
      var last := supported[|supported| - 1];
      assert forall other :: other in supported <==> other in supported[..|supported| - 1] || other == last;
      Without(supported[..|supported| - 1], capability) + if last == capability then [] else [last]
  }

  function Degrade(d: Declared, capability: string, reason: string): Declared {
    Declared(Without(d.supported, capability), d.degraded[capability := reason], d.caveats)
  }

  function Warn(d: Declared, capability: string, caveat: string): Declared {
    d.(caveats := d.caveats[capability := caveat])
  }

  method CloneNotes(notes: StringMap?) returns (cloned: StringMap)
    ensures fresh(cloned) && cloned.entries == Entries(notes)
  {
    if notes == null {
      cloned := new StringMap(map[]);
    } else {
      cloned := CopyEntries(notes);
    }
  }

  /** A new set; nothing that could be read before the call reads differently after it. */
  method WithDegraded(c: Capabilities, capability: string, reason: string) returns (r: Capabilities)
    ensures View(r) == Degrade(View(c), capability, reason)
    ensures fresh(r.degraded) && r.caveats == c.caveats
    ensures View(c) == old(View(c))
  {
    var supported := [];
    for i := 0 to |c.supported|
      invariant supported == Without(c.supported[..i], capability)
    {
      assert c.supported[..i + 1][..i] == c.supported[..i];
      if c.supported[i] != capability {
        supported := supported + [c.supported[i]];
      }
    }
    assert c.supported[..|c.supported|] == c.supported;
    var degraded := CloneNotes(c.degraded);
    degraded.entries := degraded.entries[capability := reason];
    r := Capabilities(supported, degraded, c.caveats);
  }

  method WithCaveat(c: Capabilities, capability: string, caveat: string) returns (r: Capabilities)
    ensures View(r) == Warn(View(c), capability, caveat)
    ensures fresh(r.caveats) && r.degraded == c.degraded && r.supported == c.supported
    ensures View(c) == old(View(c))
  {
    var caveats := CloneNotes(c.caveats);
    caveats.entries := caveats.entries[capability := caveat];
    r := c.(caveats := caveats);
  }

  /** Three states a reader can tell apart: supported, explained, absent. */
  ghost predicate Disjoint(d: Declared) {
    forall capability | capability in d.degraded :: capability !in d.supported
  }

  datatype Change = Degrading(capability: string, reason: string) | Warning(capability: string, caveat: string)

  /** A driver's set: what it supports, then any number of changes. */
  function Built(supported: seq<string>, changes: seq<Change>): Declared {
    if changes == [] then Declared(supported, map[], map[])
    else
      var d := Built(supported, changes[..|changes| - 1]);
      match changes[|changes| - 1]
      case Degrading(capability, reason) => Degrade(d, capability, reason)
      case Warning(capability, caveat) => Warn(d, capability, caveat)
  }

  /** The k-th change is the last to degrade this capability, or to warn about it. */
  ghost predicate LastDegrading(changes: seq<Change>, k: nat, capability: string) {
    k < |changes| && changes[k].Degrading? && changes[k].capability == capability &&
    forall j | k < j < |changes| && changes[j].Degrading? :: changes[j].capability != capability
  }

  ghost predicate LastWarning(changes: seq<Change>, k: nat, capability: string) {
    k < |changes| && changes[k].Warning? && changes[k].capability == capability &&
    forall j | k < j < |changes| && changes[j].Warning? :: changes[j].capability != capability
  }

  ghost predicate NeverDegraded(changes: seq<Change>, capability: string) {
    forall j | 0 <= j < |changes| && changes[j].Degrading? :: changes[j].capability != capability
  }

  lemma OneMoreChange(init: seq<Change>, change: Change, k: nat, capability: string)
    ensures var changes := init + [change];
            (LastDegrading(changes, k, capability) <==>
               (k == |init| && change.Degrading? && change.capability == capability) ||
               (LastDegrading(init, k, capability) && !(change.Degrading? && change.capability == capability))) &&
            (LastWarning(changes, k, capability) <==>
               (k == |init| && change.Warning? && change.capability == capability) ||
               (LastWarning(init, k, capability) && !(change.Warning? && change.capability == capability)))
    ensures NeverDegraded(init + [change], capability) <==>
            NeverDegraded(init, capability) && !(change.Degrading? && change.capability == capability)
  {
    var changes, n := init + [change], |init|;
    assert changes[n] == change && forall j | 0 <= j < n :: changes[j] == init[j];
  }

  /** What a built set says, read off its changes: supported is what was listed and never degraded, and a reason or a caveat
      is the one given last. */
  lemma {:induction false} LastNoteStands(supported: seq<string>, changes: seq<Change>, capability: string)
    ensures var d := Built(supported, changes);
            (capability in d.supported <==> capability in supported && NeverDegraded(changes, capability)) &&
            (capability in d.degraded <==> exists k: nat :: LastDegrading(changes, k, capability)) &&
            (capability in d.caveats <==> exists k: nat :: LastWarning(changes, k, capability)) &&
            (forall k: nat | LastDegrading(changes, k, capability) :: d.degraded[capability] == changes[k].reason) &&
            (forall k: nat | LastWarning(changes, k, capability) :: d.caveats[capability] == changes[k].caveat)
  {
    if changes != [] {
      var init, n := changes[..|changes| - 1], |changes| - 1;
      assert changes == init + [changes[n]];
      LastNoteStands(supported, init, capability);
      forall k: nat { OneMoreChange(init, changes[n], k, capability); }
      OneMoreChange(init, changes[n], 0, capability);
      assert LastDegrading(changes, n, capability) <==> changes[n].Degrading? && changes[n].capability == capability;
      assert LastWarning(changes, n, capability) <==> changes[n].Warning? && changes[n].capability == capability;
      forall k: nat | LastDegrading(changes, k, capability) || LastWarning(changes, k, capability)
        ensures k < n ==> init[k] == changes[k]
      {
      }
      hide LastDegrading, LastWarning, NeverDegraded, Without;
    }
  }

  /** However a set is built, nothing is both supported and degraded, and every capability it started with is one or
      the other. */
  lemma {:induction false} BuiltIsDisjoint(supported: seq<string>, changes: seq<Change>)
    ensures Disjoint(Built(supported, changes))
    ensures var d := Built(supported, changes);
            forall capability | capability in supported :: capability in d.supported || capability in d.degraded
  {
    if changes != [] {
      BuiltIsDisjoint(supported, changes[..|changes| - 1]);
    }
  }
}
