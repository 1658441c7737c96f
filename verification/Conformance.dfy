/** The check that what a connection declares and what its code implements agree. */
module Conformance {
  import opened StringMaps
  import opened Capability

  /** One row of the table: a capability, the interface behind it, and whether the connection implements it. */
  datatype Backing = Backing(capability: string, iface: string, implemented: bool)

  datatype Problem =
    | SupportedAndDegraded(capability: string)
    | NotImplemented(capability: string, iface: string)
    | NotDeclared(iface: string)

  ghost predicate Implements(rows: seq<Backing>, iface: string) {
    exists i :: 0 <= i < |rows| && rows[i].iface == iface && rows[i].implemented
  }

  predicate Mentions(d: Declared, row: Backing) {
    row.capability in d.supported || row.capability in d.degraded
  }

  ghost predicate Declares(rows: seq<Backing>, d: Declared, iface: string) {
    exists i :: 0 <= i < |rows| && rows[i].iface == iface && Mentions(d, rows[i])
  }

  predicate Overclaims(d: Declared, row: Backing) {
    row.capability in d.supported && !row.implemented
  }

  /** Everything that is wrong, and why. */
  ghost predicate IsProblem(problem: Problem, d: Declared, rows: seq<Backing>) {
    match problem
    case SupportedAndDegraded(capability) => capability in d.degraded && capability in d.supported
    case NotImplemented(capability, iface) =>
      exists i :: 0 <= i < |rows| && rows[i].capability == capability && rows[i].iface == iface && Overclaims(d, rows[i])
    case NotDeclared(iface) => Implements(rows, iface) && !Declares(rows, d, iface)
  }

  ghost predicate Conforms(d: Declared, rows: seq<Backing>) {
    Disjoint(d) &&
    (forall i | 0 <= i < |rows| && rows[i].capability in d.supported :: rows[i].implemented) &&
    (forall i | 0 <= i < |rows| && rows[i].implemented ::
       exists j :: 0 <= j < |rows| && rows[j].iface == rows[i].iface &&
                   (rows[j].capability in d.supported || rows[j].capability in d.degraded))
  }

  lemma ConformsDeclares(d: Declared, rows: seq<Backing>)
    ensures Conforms(d, rows) <==>
            Disjoint(d) && (forall i | 0 <= i < |rows| :: !Overclaims(d, rows[i])) &&
            forall iface | Implements(rows, iface) :: Declares(rows, d, iface)
  {
    if forall iface | Implements(rows, iface) :: Declares(rows, d, iface) {
      forall i | 0 <= i < |rows| && rows[i].implemented
        ensures exists j :: 0 <= j < |rows| && rows[j].iface == rows[i].iface && Mentions(d, rows[j])
      {
        assert Implements(rows, rows[i].iface);
      }
    }
    if Conforms(d, rows) {
      forall iface | Implements(rows, iface) ensures Declares(rows, d, iface) {
        var i :| 0 <= i < |rows| && rows[i].iface == iface && rows[i].implemented;
        var j :| 0 <= j < |rows| && rows[j].iface == rows[i].iface &&
                 (rows[j].capability in d.supported || rows[j].capability in d.degraded);
        assert Mentions(d, rows[j]);
      }
    }
  }

  method BothListed(c: Capabilities) returns (problems: seq<Problem>)
    ensures forall p :: p in problems <==> p.SupportedAndDegraded? && IsProblem(p, View(c), [])
  {
    problems := [];
    var degraded := Entries(c.degraded);
    var left := degraded.Keys;
    while left != {}
      invariant left <= degraded.Keys
      invariant forall p :: p in problems <==>
        p.SupportedAndDegraded? && p.capability in degraded && p.capability !in left && p.capability in c.supported
      decreases |left|
    {
      var capability :| capability in left;
      var has := Has(c, capability);
      if has {
        problems := problems + [SupportedAndDegraded(capability)];
      }
      left := left - {capability};
    }
  }

  method OverclaimedRows(c: Capabilities, rows: seq<Backing>)
    returns (problems: seq<Problem>, implementedIfaces: set<string>, declaredIfaces: set<string>)
    ensures forall p :: p in problems <==> p.NotImplemented? && IsProblem(p, View(c), rows)
    ensures forall iface :: iface in implementedIfaces <==> Implements(rows, iface)
    ensures forall iface :: iface in declaredIfaces <==> Declares(rows, View(c), iface)
  {
    problems, implementedIfaces, declaredIfaces := [], {}, {};
    ghost var d := View(c);
    for i := 0 to |rows|
      invariant forall p :: p in problems <==> p.NotImplemented? && IsProblem(p, d, rows[..i])
      invariant forall iface :: iface in implementedIfaces <==> Implements(rows[..i], iface)
      invariant forall iface :: iface in declaredIfaces <==> Declares(rows[..i], d, iface)
    {
      var backing := rows[i];
      OneMoreRow(rows, i, d);
      if backing.implemented {
        implementedIfaces := implementedIfaces + {backing.iface};
      }
      var supported := Has(c, backing.capability);
      if supported || backing.capability in Entries(c.degraded) {
        declaredIfaces := declaredIfaces + {backing.iface};
        if supported && !backing.implemented {
          problems := problems + [NotImplemented(backing.capability, backing.iface)];
        }
      }
    }
    assert rows[..|rows|] == rows;
  }

  lemma OneMoreRow(rows: seq<Backing>, i: nat, d: Declared)
    requires i < |rows|
    ensures forall iface :: Implements(rows[..i + 1], iface) <==>
                            Implements(rows[..i], iface) || (rows[i].implemented && rows[i].iface == iface)
    ensures forall iface :: Declares(rows[..i + 1], d, iface) <==>
                            Declares(rows[..i], d, iface) || (Mentions(d, rows[i]) && rows[i].iface == iface)
    ensures forall p: Problem | p.NotImplemented? :: IsProblem(p, d, rows[..i + 1]) <==>
              IsProblem(p, d, rows[..i]) ||
              (Overclaims(d, rows[i]) && p == NotImplemented(rows[i].capability, rows[i].iface))
  {
    var before, after := rows[..i], rows[..i + 1];
    assert forall j | 0 <= j < i :: after[j] == before[j];
    assert after[i] == rows[i];
    forall iface ensures Implements(after, iface) <==>
                         Implements(before, iface) || (rows[i].implemented && rows[i].iface == iface) {
      if j :| 0 <= j < i && before[j].implemented && before[j].iface == iface {
        assert after[j].implemented;
      }
      if j :| 0 <= j < |after| && after[j].implemented && after[j].iface == iface {
        assert j == i || before[j].implemented;
      }
    }
    forall iface ensures Declares(after, d, iface) <==>
                         Declares(before, d, iface) || (Mentions(d, rows[i]) && rows[i].iface == iface) {
      if j :| 0 <= j < i && before[j].iface == iface && Mentions(d, before[j]) {
        assert Mentions(d, after[j]);
      }
      if j :| 0 <= j < |after| && after[j].iface == iface && Mentions(d, after[j]) {
        assert j == i || Mentions(d, before[j]);
      }
    }
    forall p: Problem | p.NotImplemented? ensures IsProblem(p, d, after) <==>
      IsProblem(p, d, before) || (Overclaims(d, rows[i]) && p == NotImplemented(rows[i].capability, rows[i].iface))
    {
      if j :| 0 <= j < i && before[j].capability == p.capability && before[j].iface == p.iface && Overclaims(d, before[j]) {
        assert Overclaims(d, after[j]);
      }
      if j :| 0 <= j < |after| && after[j].capability == p.capability && after[j].iface == p.iface && Overclaims(d, after[j]) {
        assert j == i || Overclaims(d, before[j]);
      }
    }
  }

  /** Reports exactly what is wrong, in whatever order the maps are read. */
  method CheckConformance(c: Capabilities, rows: seq<Backing>) returns (problems: seq<Problem>)
    ensures forall p :: p in problems <==> IsProblem(p, View(c), rows)
  {
    problems := BothListed(c);
    var overclaimed, implementedIfaces, declaredIfaces := OverclaimedRows(c, rows);
    problems := problems + overclaimed;
    var left := implementedIfaces;
    ghost var others := problems;
    while left != {}
      invariant left <= implementedIfaces
      invariant forall p :: p in problems <==>
        p in others || (p.NotDeclared? && p.iface in implementedIfaces && p.iface !in left && p.iface !in declaredIfaces)
      decreases |left|
    {
      var iface :| iface in left;
      if iface !in declaredIfaces {
        problems := problems + [NotDeclared(iface)];
      }
      left := left - {iface};
    }
  }

  /** No problem is found exactly when declarations and code agree. */
  lemma NoProblemIffConforms(d: Declared, rows: seq<Backing>)
    ensures (forall p :: !IsProblem(p, d, rows)) <==> Conforms(d, rows)
  {
    ConformsDeclares(d, rows);
    if forall p :: !IsProblem(p, d, rows) {
      forall capability | capability in d.degraded ensures capability !in d.supported {
        assert !IsProblem(SupportedAndDegraded(capability), d, rows);
      }
      forall i | 0 <= i < |rows| && rows[i].capability in d.supported ensures rows[i].implemented {
        assert !IsProblem(NotImplemented(rows[i].capability, rows[i].iface), d, rows);
      }
      forall iface | Implements(rows, iface) ensures Declares(rows, d, iface) {
        assert !IsProblem(NotDeclared(iface), d, rows);
      }
    }
  }

  /** Degrading any capability, supported or not, keeps a conforming connection conforming; so does a caveat. */
  lemma ChangingKeepsConforming(d: Declared, rows: seq<Backing>, capability: string, note: string)
    requires Conforms(d, rows)
    ensures Conforms(Degrade(d, capability, note), rows) && Conforms(Warn(d, capability, note), rows)
  {
    ConformsDeclares(d, rows);
    ConformsDeclares(Degrade(d, capability, note), rows);
    ConformsDeclares(Warn(d, capability, note), rows);
    var after := Degrade(d, capability, note);
    forall iface | Implements(rows, iface)
      ensures Declares(rows, after, iface) && Declares(rows, Warn(d, capability, note), iface)
    {
      assert Declares(rows, d, iface);
      var i :| 0 <= i < |rows| && rows[i].iface == iface && Mentions(d, rows[i]);
      assert Mentions(after, rows[i]) && Mentions(Warn(d, capability, note), rows[i]);
    }
  }

  /** Degrading is also how a driver repairs an overclaim: what it does not implement it may always explain instead. */
  lemma DegradingRepairs(d: Declared, rows: seq<Backing>, capability: string, reason: string)
    requires forall p | IsProblem(p, d, rows) :: p.NotImplemented? && p.capability == capability
    ensures Conforms(Degrade(d, capability, reason), rows)
  {
    ConformsDeclares(Degrade(d, capability, reason), rows);
    var after := Degrade(d, capability, reason);
    forall other | other in after.degraded ensures other !in after.supported {
      assert !IsProblem(SupportedAndDegraded(other), d, rows);
    }
    forall i | 0 <= i < |rows| && rows[i].capability in after.supported ensures rows[i].implemented {
      assert !IsProblem(NotImplemented(rows[i].capability, rows[i].iface), d, rows);
    }
    forall iface | Implements(rows, iface) ensures Declares(rows, after, iface) {
      assert !IsProblem(NotDeclared(iface), d, rows);
      var i :| 0 <= i < |rows| && rows[i].iface == iface && Mentions(d, rows[i]);
      assert Mentions(after, rows[i]);
    }
  }
}
