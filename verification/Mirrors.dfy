/** Where a release can be fetched from: the mirror list, its merging and the preference order. */
module Mirrors {
  import opened Common

  datatype Mirror = Mirror(name: string, manifestURL: string, assetBase: string) {
    predicate Valid() {
      name != "" && "https://" <= manifestURL && "https://" <= assetBase
    }

    function AssetURL(path: string): string {
      (if assetBase != "" && assetBase[|assetBase| - 1] == '/' then assetBase[..|assetBase| - 1] else assetBase) +
      "/" + (if path != "" && path[0] == '/' then path[1..] else path)
    }
  }

  /** Base and path are joined by one slash, whether or not either of them brings its own. */
  lemma AddressesJoin(m: Mirror, base: string, path: string)
    requires (base != "" ==> base[|base| - 1] != '/') && (path != "" ==> path[0] != '/')
    ensures m.(assetBase := base).AssetURL(path) == base + "/" + path
    ensures m.(assetBase := base).AssetURL("/" + path) == base + "/" + path
    ensures m.(assetBase := base + "/").AssetURL(path) == base + "/" + path
    ensures m.(assetBase := base + "/").AssetURL("/" + path) == base + "/" + path
  {
    assert (base + "/")[..|base + "/"| - 1] == base && ("/" + path)[1..] == path;
  }

  lemma AddressesAreSecure(m: Mirror, path: string)
    requires m.Valid()
    ensures "https://" <= m.AssetURL(path)
  {
    assert "https://"[7] == '/' && m.assetBase[..8] == "https://";
    var url := m.AssetURL(path);
    assert |url| >= 8 && url[..8] == "https://";
  }

  const BOOTSTRAP: seq<Mirror> := [
    Mirror("r2", "https://" + "dl.amigoer.com/mq-studio/latest.json", "https://" + "dl.amigoer.com/mq-studio"),
    Mirror("github", "https://" + "github.com/amigoer/mq-studio/releases/latest/download/manifest.json",
           "https://" + "github.com/amigoer/mq-studio/releases/download")
  ]

  const PREFERENCE_TTL: int := 7 * 24 * 60 * 60

  function Names(mirrors: seq<Mirror>): set<string> {
    set m | m in mirrors :: m.name
  }

  ghost predicate DistinctNames(mirrors: seq<Mirror>) {
    forall i, j | 0 <= i < j < |mirrors| :: mirrors[i].name != mirrors[j].name
  }

  // ---- Merging -----------------------------------------------------------------------------

  function Add(merged: seq<Mirror>, mirror: Mirror): seq<Mirror> {
    if mirror.Valid() && mirror.name !in Names(merged) then merged + [mirror] else merged
  }

  function Fold(merged: seq<Mirror>, mirrors: seq<Mirror>): seq<Mirror> {
    if mirrors == [] then merged else Add(Fold(merged, mirrors[..|mirrors| - 1]), mirrors[|mirrors| - 1])
  }

  function Merge(known: seq<Mirror>, learned: seq<Mirror>): seq<Mirror> {
    Fold(Fold([], known), learned)
  }

  method MergeMirrors(known: seq<Mirror>, learned: seq<Mirror>) returns (merged: seq<Mirror>)
    ensures merged == Merge(known, learned)
  {
    merged := [];
    var seen: set<string> := {};
    for i := 0 to |known|
      invariant merged == Fold([], known[..i]) && seen == Names(merged)
    {
      assert known[..i + 1][..i] == known[..i];
      if known[i].Valid() && known[i].name !in seen {
        seen := seen + {known[i].name};
        merged := merged + [known[i]];
      }
    }
    assert known[..|known|] == known;
    for i := 0 to |learned|
      invariant merged == Fold(Fold([], known), learned[..i]) && seen == Names(merged)
    {
      assert learned[..i + 1][..i] == learned[..i];
      if learned[i].Valid() && learned[i].name !in seen {
        seen := seen + {learned[i].name};
        merged := merged + [learned[i]];
      }
    }
    assert learned[..|learned|] == learned;
  }

  /** Entry i is the first valid one of its name. */
  ghost predicate First(mirrors: seq<Mirror>, i: int) {
    0 <= i < |mirrors| && mirrors[i].Valid() &&
    forall j | 0 <= j < i :: mirrors[j].Valid() ==> mirrors[j].name != mirrors[i].name
  }

  /** The declarative reading: the first valid entry of each name, in order. */
  ghost function FirstWins(mirrors: seq<Mirror>, n: nat): seq<Mirror>
    requires n <= |mirrors|
  {
    if n == 0 then []
    else FirstWins(mirrors, n - 1) + if First(mirrors, n - 1) then [mirrors[n - 1]] else []
  }

  ghost predicate NamedBefore(mirrors: seq<Mirror>, n: nat, name: string)
    requires n <= |mirrors|
  {
    exists j :: 0 <= j < n && mirrors[j].Valid() && mirrors[j].name == name
  }

  lemma {:induction false} NamesOfFirstWins(mirrors: seq<Mirror>, n: nat, name: string)
    requires n <= |mirrors|
    ensures name in Names(FirstWins(mirrors, n)) <==> NamedBefore(mirrors, n, name)
  {
    if n > 0 {
      NamesOfFirstWins(mirrors, n - 1, name);
      var last, before := mirrors[n - 1], FirstWins(mirrors, n - 1);
      NamesOfFirstWins(mirrors, n - 1, last.name);
      assert Names(before + [last]) == Names(before) + {last.name};
      assert NamedBefore(mirrors, n, name) <==>
             NamedBefore(mirrors, n - 1, name) || (last.Valid() && last.name == name);
    }
  }

  lemma {:induction false} FoldIsFirstWins(mirrors: seq<Mirror>, n: nat)
    requires n <= |mirrors|
    ensures Fold([], mirrors[..n]) == FirstWins(mirrors, n)
  {
    if n > 0 {
      FoldIsFirstWins(mirrors, n - 1);
      NamesOfFirstWins(mirrors, n - 1, mirrors[n - 1].name);
      assert mirrors[..n][..n - 1] == mirrors[..n - 1];
    }
  }

  lemma {:induction false} FoldAppend(merged: seq<Mirror>, a: seq<Mirror>, b: seq<Mirror>)
    ensures Fold(merged, a + b) == Fold(Fold(merged, a), b)
  {
    if b == [] {
      assert a + b == a;
    } else {
      assert (a + b)[..|a + b| - 1] == a + b[..|b| - 1];
      FoldAppend(merged, a, b[..|b| - 1]);
    }
  }

  /** A manifest's list only ever adds: entry by entry, the concatenation's first valid mirror of a name wins. */
  lemma MergeIsFirstWins(known: seq<Mirror>, learned: seq<Mirror>)
    ensures Merge(known, learned) == FirstWins(known + learned, |known + learned|)
  {
    FoldAppend([], known, learned);
    assert (known + learned)[..|known + learned|] == known + learned;
    FoldIsFirstWins(known + learned, |known + learned|);
  }

  lemma AddGrows(merged: seq<Mirror>, mirror: Mirror)
    requires DistinctNames(merged)
    ensures var added := Add(merged, mirror);
            DistinctNames(added) && merged <= added &&
            (forall m | m in added :: m in merged || (m == mirror && m.Valid())) &&
            (mirror.Valid() ==> mirror.name in Names(added)) && Names(merged) <= Names(added)
  {
    if mirror.Valid() && mirror.name !in Names(merged) {
      assert Add(merged, mirror)[|merged|] == mirror;
      assert forall m | m in merged :: m.name in Names(merged);
    }
  }

  lemma {:induction false} FoldGrows(merged: seq<Mirror>, mirrors: seq<Mirror>)
    requires DistinctNames(merged)
    ensures DistinctNames(Fold(merged, mirrors))
    ensures merged <= Fold(merged, mirrors)
    ensures forall m | m in Fold(merged, mirrors) :: m in merged || (m in mirrors && m.Valid())
    ensures forall m | m in mirrors && m.Valid() :: m.name in Names(Fold(merged, mirrors))
    ensures Names(merged) <= Names(Fold(merged, mirrors))
  {
    if mirrors != [] {
      var init, last := mirrors[..|mirrors| - 1], mirrors[|mirrors| - 1];
      FoldGrows(merged, init);
      AddGrows(Fold(merged, init), last);
      assert Fold(merged, mirrors) == Add(Fold(merged, init), last);
      hide Fold, Add;
      assert forall m | m in mirrors :: m in init || m == last;
    }
  }

  lemma {:induction false} FoldAbsorbs(merged: seq<Mirror>, mirrors: seq<Mirror>)
    requires DistinctNames(merged)
    ensures Fold(merged, Fold([], mirrors)) == Fold(merged, mirrors)
  {
    if mirrors != [] {
      var init, last := mirrors[..|mirrors| - 1], mirrors[|mirrors| - 1];
      var own := Fold([], init);
      FoldAbsorbs(merged, init);
      FoldGrows([], init);
      FoldGrows(merged, own);
      if last.Valid() && last.name !in Names(own) {
        assert (own + [last])[..|own|] == own;
      } else if last.Valid() {
        assert last.name in Names(Fold(merged, own));
      }
    }
  }

  lemma MergeIsAssociative(a: seq<Mirror>, b: seq<Mirror>, c: seq<Mirror>)
    ensures Merge(Merge(a, b), c) == Merge(a, Merge(b, c)) == Fold([], a + (b + c))
  {
    hide Fold;
    var own := Fold([], a);
    FoldGrows([], a);
    calc {
      Merge(a, Merge(b, c));
      { FoldAppend([], b, c); }
      Fold(own, Fold([], b + c));
      { FoldAbsorbs(own, b + c); }
      Fold(own, b + c);
      { FoldAppend([], a, b + c); }
      Fold([], a + (b + c));
    }
    calc {
      Merge(Merge(a, b), c);
      { FoldAppend([], a, b); FoldAbsorbs([], a + b); }
      Fold(Fold([], a + b), c);
      { FoldAppend([], a + b, c); }
      Fold([], (a + b) + c);
      { assert a + b + c == a + (b + c); }
      Fold([], a + (b + c));
    }
  }

  lemma MergeIsIdempotent(a: seq<Mirror>, b: seq<Mirror>)
    ensures Merge(Merge(a, b), b) == Merge(a, b) == Merge(a, Merge(a, b))
    ensures Merge(Merge(a, b), []) == Merge(a, b)
  {
    FoldAppend([], a, b);
    FoldAbsorbs([], a + b);
    FoldGrows([], a);
    FoldGrows(Fold([], a), b);
    NothingToAdd(Merge(a, b), b);
    NothingToAdd(Fold([], a), a) by { FoldGrows([], a); }
    FoldAbsorbs(Fold([], a), a + b);
    FoldAppend(Fold([], a), a, b);
  }

  lemma {:induction false} NothingToAdd(merged: seq<Mirror>, mirrors: seq<Mirror>)
    requires forall m | m in mirrors && m.Valid() :: m.name in Names(merged)
    ensures Fold(merged, mirrors) == merged
  {
    if mirrors != [] {
      NothingToAdd(merged, mirrors[..|mirrors| - 1]);
      assert mirrors[|mirrors| - 1] in mirrors;
    }
  }

  /** What remembering one manifest after another leaves in LearnedMirrors. */
  function Learn(learned: seq<Mirror>, manifests: seq<seq<Mirror>>): seq<Mirror> {
    if manifests == [] then learned
    else
      var before := Learn(learned, manifests[..|manifests| - 1]);
      var named := manifests[|manifests| - 1];
      if named == [] then before else Merge(before, named)
  }

  function Flatten(lists: seq<seq<Mirror>>): seq<Mirror> {
    if lists == [] then [] else Flatten(lists[..|lists| - 1]) + lists[|lists| - 1]
  }

  /** Whatever was stored and whatever any manifests said: the plan is the compiled-in list, unchanged and
      first, then the first valid mirror of every new name in the order the names were learned. */
  lemma {:induction false} PlanKeepsCompiledIn(stored: seq<Mirror>, manifests: seq<seq<Mirror>>)
    ensures var plan := Merge(BOOTSTRAP, Learn(stored, manifests));
            BOOTSTRAP <= plan && DistinctNames(plan) &&
            (forall m | m in plan ::
               m.Valid() && m.name != "" && "https://" <= m.manifestURL && forall path :: "https://" <= m.AssetURL(path)) &&
            plan == Fold([], BOOTSTRAP + (stored + Flatten(manifests)))
  {
    var learned := Learn(stored, manifests);
    forall m: Mirror, path | m.Valid() ensures "https://" <= m.AssetURL(path) {
      AddressesAreSecure(m, path);
    }
    assert Fold([], BOOTSTRAP) == BOOTSTRAP by { BootstrapIsMerged(); }
    FoldGrows([], BOOTSTRAP);
    FoldGrows(BOOTSTRAP, learned);
    FoldAppend([], BOOTSTRAP, learned);
    LearnedIsFlattened(BOOTSTRAP, stored, manifests);
    FoldAppend([], BOOTSTRAP, stored + Flatten(manifests));
  }

  lemma BootstrapIsMerged()
    ensures Fold([], BOOTSTRAP) == BOOTSTRAP
  {
    assert BOOTSTRAP[..1] == [BOOTSTRAP[0]] && BOOTSTRAP[..1][..0] == [];
    assert BOOTSTRAP[0].Valid() && BOOTSTRAP[1].Valid();
    assert BOOTSTRAP[0].name[0] != BOOTSTRAP[1].name[0];
    assert Fold([], BOOTSTRAP[..1]) == [BOOTSTRAP[0]] by { assert Fold([], []) == []; }
    assert Names([BOOTSTRAP[0]]) == {BOOTSTRAP[0].name};
  }

  lemma {:induction false} LearnedIsFlattened(base: seq<Mirror>, stored: seq<Mirror>, manifests: seq<seq<Mirror>>)
    requires DistinctNames(base)
    ensures Fold(base, Learn(stored, manifests)) == Fold(base, stored + Flatten(manifests))
  {
    if manifests == [] {
      assert stored + Flatten(manifests) == stored;
    } else {
      var init, named := manifests[..|manifests| - 1], manifests[|manifests| - 1];
      var before := Learn(stored, init);
      LearnedIsFlattened(base, stored, init);
      assert stored + Flatten(manifests) == stored + Flatten(init) + named;
      FoldAppend(base, stored + Flatten(init), named);
      FoldAppend(base, before, named);
      FoldAppend([], before, named);
      FoldAbsorbs(base, before + named);
    }
  }

  // ---- The order a download falls through -------------------------------------------------------

  function Others(mirrors: seq<Mirror>, winner: string): seq<Mirror> {
    if mirrors == [] then []
    else Others(mirrors[..|mirrors| - 1], winner) +
         if mirrors[|mirrors| - 1].name != winner then [mirrors[|mirrors| - 1]] else []
  }

  function Order(mirrors: seq<Mirror>, winner: Mirror): seq<Mirror> {
    [winner] + Others(mirrors, winner.name)
  }

  method OrderFrom(mirrors: seq<Mirror>, winner: Mirror) returns (order: seq<Mirror>)
    ensures order == Order(mirrors, winner)
  {
    order := [winner];
    for i := 0 to |mirrors|
      invariant order == Order(mirrors[..i], winner)
    {
      assert mirrors[..i + 1][..i] == mirrors[..i];
      if mirrors[i].name != winner.name {
        order := order + [mirrors[i]];
      }
    }
    assert mirrors[..|mirrors|] == mirrors;
  }

  lemma {:induction false} OthersAppend(a: seq<Mirror>, b: seq<Mirror>, winner: string)
    ensures Others(a + b, winner) == Others(a, winner) + Others(b, winner)
  {
    if b == [] {
      assert a + b == a;
    } else {
      assert (a + b)[..|a + b| - 1] == a + b[..|b| - 1];
      OthersAppend(a, b[..|b| - 1], winner);
    }
  }

  lemma {:induction false} OthersKeepAll(mirrors: seq<Mirror>, winner: string)
    requires winner !in Names(mirrors)
    ensures Others(mirrors, winner) == mirrors
  {
    if mirrors != [] {
      assert mirrors[|mirrors| - 1] in mirrors;
      assert mirrors == mirrors[..|mirrors| - 1] + [mirrors[|mirrors| - 1]];
      OthersKeepAll(mirrors[..|mirrors| - 1], winner);
    }
  }

  lemma OthersWithoutWinner(before: seq<Mirror>, winner: Mirror, after: seq<Mirror>)
    requires winner.name !in Names(before) && winner.name !in Names(after)
    ensures Others(before + ([winner] + after), winner.name) == before + after
  {
    hide Others, Names;
    OthersAppend(before, [winner] + after, winner.name);
    OthersAppend([winner], after, winner.name);
    OthersKeepAll(before, winner.name);
    OthersKeepAll(after, winner.name);
    WinnerIsNoOther(winner);
    var others := Others([winner] + after, winner.name);
    assert others == after;
  }

  lemma WinnerIsNoOther(winner: Mirror)
    ensures Others([winner], winner.name) == []
  {
    assert [winner][..0] == [];
  }

  lemma SameElements(before: seq<Mirror>, winner: Mirror, after: seq<Mirror>)
    ensures multiset([winner] + (before + after)) == multiset(before + ([winner] + after))
  {
  }

  /** With distinct names the order is the configured list with the winner moved to the front. */
  lemma OrderMovesWinnerFirst(mirrors: seq<Mirror>, w: nat)
    requires w < |mirrors| && DistinctNames(mirrors)
    ensures Order(mirrors, mirrors[w]) == [mirrors[w]] + (mirrors[..w] + mirrors[w + 1..])
    ensures multiset(Order(mirrors, mirrors[w])) == multiset(mirrors)
  {
    hide Others;
    assert mirrors == mirrors[..w] + ([mirrors[w]] + mirrors[w + 1..]);
    OthersWithoutWinner(mirrors[..w], mirrors[w], mirrors[w + 1..]);
    SameElements(mirrors[..w], mirrors[w], mirrors[w + 1..]);
  }

  // ---- The remembered winner -------------------------------------------------------------------

  method FindMirror(mirrors: seq<Mirror>, name: string) returns (found: Option<Mirror>)
    ensures found.Some? <==> name in Names(mirrors)
    ensures found.Some? ==> exists i :: 0 <= i < |mirrors| && mirrors[i] == found.value && mirrors[i].name == name &&
                                        forall j | 0 <= j < i :: mirrors[j].name != name
  {
    for i := 0 to |mirrors|
      invariant forall j | 0 <= j < i :: mirrors[j].name != name
    {
      if mirrors[i].name == name {
        return Some(mirrors[i]);
      }
    }
    found := None;
  }

  /** The mirrors a check tries, and the one tried alone first. `measured` is None for an unreadable time. */
  method Plan(learned: seq<Mirror>, preferred: string, measured: Option<int>, now: int)
    returns (mirrors: seq<Mirror>, first: Option<Mirror>)
    ensures mirrors == Merge(BOOTSTRAP, learned)
    ensures first.Some? <==> preferred != "" && preferred in Names(mirrors) &&
                             measured.Some? && now - measured.value < PREFERENCE_TTL
    ensures first.Some? ==> first.value in mirrors && first.value.name == preferred
  {
    mirrors := MergeMirrors(BOOTSTRAP, learned);
    PlanKeepsCompiledIn(learned, []);
    first := None;
    if preferred == "" || |mirrors| < 2 {
      return;
    }
    if measured.None? || now - measured.value >= PREFERENCE_TTL {
      return;
    }
    first := FindMirror(mirrors, preferred);
  }
}
