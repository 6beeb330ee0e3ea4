/** The breadth-first ancestors of an application (diam/dict/snapshot.go,
    ancestorApps): each ancestor once, nearest first, base last. */
module Ancestry {
  import opened Octets
  import opened Inheritance

  predicate Distinct(s: seq<Word>) {
    forall i, j :: 0 <= i < j < |s| ==> s[i] != s[j]
  }

  /** `found` followed by those of `parents` not seen before, in order. */
  function AppendNew(found: seq<Word>, parents: seq<Word>, app: Word): (r: seq<Word>)
    ensures found <= r
    decreases parents
  {
    if parents == [] then found
    else if parents[0] in found || parents[0] in {app, 0} then AppendNew(found, parents[1..], app)
    else AppendNew(found + [parents[0]], parents[1..], app)
  }

  ghost predicate Listed(g: Graph, app: Word, found: seq<Word>) {
    Distinct(found) && forall x :: x in found ==> x in Mentioned(g) && x != app && x != 0
  }

  lemma {:induction false} DistinctFits(s: seq<Word>, all: set<Word>)
    requires Distinct(s) && forall x :: x in s ==> x in all
    ensures |s| <= |all|
  {
    if s != [] {
      var last, init := s[|s| - 1], s[..|s| - 1];
      assert last !in init;
      DistinctFits(init, all - {last});
    }
  }

  lemma {:induction false} AppendNewListed(g: Graph, app: Word, found: seq<Word>, parents: seq<Word>)
    requires Listed(g, app, found) && forall x :: x in parents ==> x in Mentioned(g)
    ensures Listed(g, app, AppendNew(found, parents, app))
    decreases parents
  {
    if parents != [] {
      var x, rest := parents[0], parents[1..];
      if x in found || x in {app, 0} {
        AppendNewListed(g, app, found, rest);
      } else {
        assert Listed(g, app, found + [x]);
        AppendNewListed(g, app, found + [x], rest);
      }
    }
  }

  /** The queue of a breadth-first search that has expanded `found[..i]`. */
  ghost function Expand(g: Graph, app: Word, found: seq<Word>, i: nat): (r: seq<Word>)
    requires Listed(g, app, found)
    decreases |Mentioned(g)| - i
  {
    if i >= |found| then found
    else
      DistinctFits(found, Mentioned(g));
      AppendNewListed(g, app, found, ParentsOf(g, found[i]));
      Expand(g, app, AppendNew(found, ParentsOf(g, found[i]), app), i + 1)
  }

  ghost function Ancestors(g: Graph, app: Word): seq<Word> {
    if app == 0 then []
    else
      AppendNewListed(g, app, [], ParentsOf(g, app));
      Expand(g, app, AppendNew([], ParentsOf(g, app), app), 0) + [0]
  }

  /** appendParents, with its loop over the declared parents. */
  method AppendParents(g: Graph, app: Word, ancestors: seq<Word>, id: Word, seen: set<Word>)
    returns (longer: seq<Word>, seen': set<Word>)
    requires seen == {app, 0} + set x | x in ancestors
    ensures longer == AppendNew(ancestors, ParentsOf(g, id), app)
    ensures seen' == {app, 0} + set x | x in longer
  {
    longer, seen' := ancestors, seen;
    var parents := ParentsOf(g, id);
    var i := 0;
    while i < |parents|
      invariant i <= |parents|
      invariant AppendNew(longer, parents[i..], app) == AppendNew(ancestors, parents, app)
      invariant seen' == {app, 0} + set x | x in longer
    {
      assert parents[i..][1..] == parents[i + 1..];
      if parents[i] !in seen' {
        longer, seen' := longer + [parents[i]], seen' + {parents[i]};
      }
      i := i + 1;
    }
  }

  /** ancestorApps */
  method AncestorApps(g: Graph, app: Word) returns (list: seq<Word>)
    ensures list == Ancestors(g, app)
  {
    if app == 0 {
      return [];
    }
    var seen;
    list, seen := AppendParents(g, app, [], app, {app, 0});
    AppendNewListed(g, app, [], ParentsOf(g, app));
    ghost var start := list;
    var i := 0;
    while i < |list|
      invariant i <= |list| && Listed(g, app, list)
      invariant seen == {app, 0} + set x | x in list
      invariant Expand(g, app, list, i) == Expand(g, app, start, 0)
      decreases |Mentioned(g)| - i
    {
      DistinctFits(list, Mentioned(g));
      AppendNewListed(g, app, list, ParentsOf(g, list[i]));
      list, seen := AppendParents(g, app, list, list[i], seen);
      i := i + 1;
    }
    list := list + [0];
  }

  // ---- Order by distance ----------------------------------------------------------

  /** Applications at most `k` inheritance steps above `app`. */
  function Within(g: Graph, app: Word, k: nat): set<Word> {
    if k == 0 then {app}
    else var near := Within(g, app, k - 1); near + set y, x | y in near && x in ParentsOf(g, y) :: x
  }

  function At(found: seq<Word>, app: Word, t: int): Word
    requires -1 <= t < |found|
  {
    if t < 0 then app else found[t]
  }

  predicate Inherits(g: Graph, found: seq<Word>, app: Word, t: int, x: Word)
    requires -1 <= t < |found|
  {
    x in ParentsOf(g, At(found, app, t))
  }

  /** `disc[j]` is the first place whose parents include `found[j]`, place -1
      being the application itself. Places before `i` have been expanded. */
  ghost predicate Trace(g: Graph, app: Word, found: seq<Word>, disc: seq<int>, i: int) {
    && |disc| == |found|
    && (forall j :: 0 <= j < |disc| ==> -1 <= disc[j] < j && disc[j] <= i && Inherits(g, found, app, disc[j], found[j]))
    && (forall j, k :: 0 <= j < k < |disc| ==> disc[j] <= disc[k])
    && (forall j, t :: 0 <= j < |disc| && -1 <= t < disc[j] ==> !Inherits(g, found, app, t, found[j]))
    && (forall t, x :: -1 <= t < i && t < |found| && Inherits(g, found, app, t, x) ==> x in found || x in {app, 0})
  }

  lemma InheritsSame(g: Graph, app: Word, found: seq<Word>, x: Word, t: int, y: Word)
    requires -1 <= t < |found|
    ensures Inherits(g, found + [x], app, t, y) == Inherits(g, found, app, t, y)
  {
    assert At(found + [x], app, t) == At(found, app, t);
  }

  lemma DiscoverOne(g: Graph, app: Word, found: seq<Word>, disc: seq<int>, i: int, x: Word)
    requires Trace(g, app, found, disc, i) && -1 <= i < |found| && Inherits(g, found, app, i, x)
    requires x !in found && x !in {app, 0}
    ensures Trace(g, app, found + [x], disc + [i], i)
  {
    var longer, more := found + [x], disc + [i];
    forall j | 0 <= j < |more|
      ensures -1 <= more[j] < j && more[j] <= i && Inherits(g, longer, app, more[j], longer[j])
    {
      InheritsSame(g, app, found, x, more[j], longer[j]);
    }
    forall j, t | 0 <= j < |more| && -1 <= t < more[j]
      ensures !Inherits(g, longer, app, t, longer[j])
    {
      InheritsSame(g, app, found, x, t, longer[j]);
      if j == |found| { assert !(x in found || x in {app, 0}); }
    }
    forall t, y | -1 <= t < i && Inherits(g, longer, app, t, y)
      ensures y in longer || y in {app, 0}
    {
      InheritsSame(g, app, found, x, t, y);
    }
  }

  /** Expanding place `i` discovers its unseen parents there. */
  lemma {:induction false} Discover(g: Graph, app: Word, found: seq<Word>, disc: seq<int>, i: int, parents: seq<Word>)
    returns (disc': seq<int>)
    requires Trace(g, app, found, disc, i) && -1 <= i < |found|
    requires forall x :: x in parents ==> x in ParentsOf(g, At(found, app, i))
    ensures Trace(g, app, AppendNew(found, parents, app), disc', i)
    ensures forall x :: x in parents ==> x in AppendNew(found, parents, app) || x in {app, 0}
    decreases parents
  {
    if parents == [] {
      disc' := disc;
    } else {
      var x, rest := parents[0], parents[1..];
      if x in found || x in {app, 0} {
        disc' := Discover(g, app, found, disc, i, rest);
        if x in found { PrefixMember(found, AppendNew(found, rest, app), x); }
      } else {
        DiscoverOne(g, app, found, disc, i, x);
        assert At(found + [x], app, i) == At(found, app, i);
        disc' := Discover(g, app, found + [x], disc + [i], i, rest);
        PrefixMember(found + [x], AppendNew(found + [x], rest, app), x);
      }
    }
  }

  lemma PrefixMember(a: seq<Word>, b: seq<Word>, x: Word)
    requires a <= b && x in a
    ensures x in b
  {
    var k :| 0 <= k < |a| && a[k] == x;
    assert b[k] == x;
  }

  lemma Expanded(g: Graph, app: Word, found: seq<Word>, disc: seq<int>, i: int, longer: seq<Word>)
    requires Trace(g, app, longer, disc, i) && found <= longer && -1 <= i < |found|
    requires forall x :: x in ParentsOf(g, At(found, app, i)) ==> x in longer || x in {app, 0}
    ensures Trace(g, app, longer, disc, i + 1)
  {
    assert At(longer, app, i) == At(found, app, i);
  }

  lemma {:induction false} ExpandTrace(g: Graph, app: Word, found: seq<Word>, disc: seq<int>, i: nat)
    returns (disc': seq<int>)
    requires Listed(g, app, found) && Trace(g, app, found, disc, i) && i <= |found|
    ensures var all := Expand(g, app, found, i); Listed(g, app, all) && Trace(g, app, all, disc', |all|)
    decreases |Mentioned(g)| - i
  {
    if i >= |found| {
      disc' := disc;
    } else {
      var longer := AppendNew(found, ParentsOf(g, found[i]), app);
      DistinctFits(found, Mentioned(g));
      AppendNewListed(g, app, found, ParentsOf(g, found[i]));
      disc' := Discover(g, app, found, disc, i, ParentsOf(g, found[i]));
      Expanded(g, app, found, disc', i, longer);
      disc' := ExpandTrace(g, app, longer, disc', i + 1);
    }
  }

  /** How many steps up `found[j]` was discovered. */
  function Level(disc: seq<int>, j: nat): nat
    requires j < |disc| && forall k :: 0 <= k < |disc| ==> -1 <= disc[k] < k
    decreases j
  {
    if disc[j] < 0 then 1 else 1 + Level(disc, disc[j])
  }

  lemma {:induction false} LevelsGrow(disc: seq<int>, j: nat, k: nat)
    requires j <= k < |disc| && forall k :: 0 <= k < |disc| ==> -1 <= disc[k] < k
    requires forall j, k :: 0 <= j < k < |disc| ==> disc[j] <= disc[k]
    ensures Level(disc, j) <= Level(disc, k)
    decreases k
  {
    if 0 <= disc[j] {
      LevelsGrow(disc, disc[j], disc[k]);
    }
  }

  lemma {:induction false} LevelReached(g: Graph, app: Word, found: seq<Word>, disc: seq<int>, i: int, j: nat)
    requires Trace(g, app, found, disc, i) && j < |found|
    ensures found[j] in Within(g, app, Level(disc, j))
    decreases j
  {
    var near := if disc[j] < 0 then 0 else Level(disc, disc[j]);
    if 0 <= disc[j] { LevelReached(g, app, found, disc, i, disc[j]); }
    assert At(found, app, disc[j]) in Within(g, app, near);
    assert Inherits(g, found, app, disc[j], found[j]);
  }

  /** No shorter way up exists than the one a breadth-first search found. */
  /** A parent of what was found at `t` is found one level up at most. */
  lemma LevelParent(g: Graph, app: Word, found: seq<Word>, disc: seq<int>, t: nat, x: Word) returns (j: nat)
    requires Trace(g, app, found, disc, |found|) && t < |found| && x in ParentsOf(g, found[t]) && x !in {app, 0}
    ensures j < |found| && found[j] == x && Level(disc, j) <= Level(disc, t) + 1
  {
    assert Inherits(g, found, app, t, x);
    j :| 0 <= j < |found| && found[j] == x;
    assert disc[j] <= t;
    if 0 <= disc[j] { LevelsGrow(disc, disc[j], t); }
  }

  lemma {:induction false} LevelLeast(g: Graph, app: Word, found: seq<Word>, disc: seq<int>, k: nat, x: Word)
    requires Trace(g, app, found, disc, |found|) && ParentsOf(g, 0) == []
    requires x in Within(g, app, k) && x !in {app, 0}
    ensures exists j :: 0 <= j < |found| && found[j] == x && Level(disc, j) <= k
    decreases k
  {
    if x in Within(g, app, k - 1) {
      LevelLeast(g, app, found, disc, k - 1, x);
    } else {
      var y :| y in Within(g, app, k - 1) && x in ParentsOf(g, y);
      if y == app {
        assert Inherits(g, found, app, -1, x);
        var j :| 0 <= j < |found| && found[j] == x;
        assert disc[j] == -1;
      } else {
        LevelLeast(g, app, found, disc, k - 1, y);
        var t :| 0 <= t < |found| && found[t] == y && Level(disc, t) <= k - 1;
        var j := LevelParent(g, app, found, disc, t, x);
      }
    }
  }

  /** Reachable in some number of steps. */
  ghost predicate Above(g: Graph, app: Word, x: Word) {
    exists k: nat :: x in Within(g, app, k)
  }

  lemma SearchTrace(g: Graph, app: Word) returns (all: seq<Word>, disc: seq<int>)
    requires app != 0
    ensures Ancestors(g, app) == all + [0] && Listed(g, app, all) && Trace(g, app, all, disc, |all|)
  {
    AppendNewListed(g, app, [], ParentsOf(g, app));
    var start := AppendNew([], ParentsOf(g, app), app);
    disc := Discover(g, app, [], [], -1, ParentsOf(g, app));
    Expanded(g, app, [], disc, -1, start);
    disc := ExpandTrace(g, app, start, disc, 0);
    all := Expand(g, app, start, 0);
  }

  /** Base comes last; before it stands every other ancestor exactly once. */
  lemma AncestorsComplete(g: Graph, app: Word)
    requires ParentsOf(g, 0) == [] && app != 0
    ensures var list := Ancestors(g, app);
            var n := |list| - 1;
            && n >= 0 && list[n] == 0
            && Distinct(list)
            && (forall x :: x in list[..n] <==> x !in {app, 0} && Above(g, app, x))
  {
    var all, disc := SearchTrace(g, app);
    var list := Ancestors(g, app);
    assert list[..|all|] == all;
    forall i | 0 <= i < |all| ensures list[i] != 0 {
      assert all[i] in all;
    }
    forall x | x in all ensures Above(g, app, x) {
      var j :| 0 <= j < |all| && all[j] == x;
      LevelReached(g, app, all, disc, |all|, j);
    }
    forall x | x !in {app, 0} && Above(g, app, x) ensures x in all {
      var k: nat :| x in Within(g, app, k);
      LevelLeast(g, app, all, disc, k, x);
    }
  }

  /** No ancestor is listed before a nearer one. */
  lemma NearestFirst(g: Graph, app: Word, i: nat, j: nat, k: nat)
    requires ParentsOf(g, 0) == [] && app != 0 && i < j < |Ancestors(g, app)| - 1
    requires Ancestors(g, app)[j] in Within(g, app, k)
    ensures Ancestors(g, app)[i] in Within(g, app, k)
  {
    var all, disc := SearchTrace(g, app);
    assert all[i] == Ancestors(g, app)[i] && all[j] == Ancestors(g, app)[j];
    assert all[j] in all;
    LevelLeast(g, app, all, disc, k, all[j]);
    LevelsGrow(disc, i, j);
    LevelReached(g, app, all, disc, |all|, i);
    WithinGrows(g, app, Level(disc, i), k);
  }

  lemma {:induction false} WithinGrows(g: Graph, app: Word, k: nat, l: nat)
    requires k <= l
    ensures Within(g, app, k) <= Within(g, app, l)
    decreases l
  {
    if k < l { WithinGrows(g, app, k, l - 1); }
  }
}
