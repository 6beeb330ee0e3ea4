/** mergeInheritedAVPs (diam/dict/snapshot.go): copying ancestors' definitions
    into each application's index, with map iteration in any order. */
module DictionaryMerge {
  import opened Octets
  import opened Inheritance
  import opened Ancestry
  import opened Dictionary

  /** Entries of applications other than `app` are the same. */
  ghost predicate OthersKept(before: Codes, after: Codes, app: Word) {
    forall k: CodeIdx :: k.app != app ==> Probe(after, k) == Probe(before, k)
  }

  ghost predicate OtherNamesKept(before: Names, after: Names, app: Word) {
    forall k: NameIdx :: k.app != app ==> ProbeName(after, k) == ProbeName(before, k)
  }

  /** The child's view of the codes when `taken` of the ancestor's are in. */
  ghost predicate TakingCodes(codes: Codes, own: Own, app: Word, chain: seq<Word>, x: Word, taken: set<CodeIdx>) {
    forall c: Word, v: Word ::
      Probe(codes, CodeIdx(app, c, v))
      == if Search(own.codes, chain, c, v).Some? then Search(own.codes, chain, c, v)
         else if CodeIdx(x, c, v) in taken then Probe(own.codes, CodeIdx(x, c, v)) else None
  }

  /** Copies to `app` the codes of its ancestor `x` that no nearer application defines. */
  method InheritCodes(codes: Codes, ghost own: Own, app: Word, ghost chain: seq<Word>, x: Word, from: set<CodeIdx>)
    returns (after: Codes)
    requires app != x && CodesFor(codes, own, app, chain)
    requires from == set k | k in own.codes && k.app == x
    requires forall k :: k in from ==> Probe(codes, k) == Probe(own.codes, k)
    ensures CodesFor(after, own, app, chain + [x]) && OthersKept(codes, after, app)
  {
    after := codes;
    var todo := from;
    while todo != {}
      invariant todo <= from
      invariant TakingCodes(after, own, app, chain, x, from - todo)
      invariant OthersKept(codes, after, app)
    {
      var idx :| idx in todo;
      assert Probe(after, idx) == Probe(own.codes, idx);
      var child := CodeIdx(app, idx.code, idx.vendor);
      if child !in after {
        after := after[child := after[idx]];
      }
      todo := todo - {idx};
    }
    forall c: Word, v: Word
      ensures Probe(after, CodeIdx(app, c, v)) == Search(own.codes, chain + [x], c, v)
    {
      SearchAppend(own.codes, chain, [x], c, v);
      assert Search(own.codes, [x], c, v) == Probe(own.codes, CodeIdx(x, c, v));
    }
  }

  ghost predicate TakingNames(names: Names, own: Own, app: Word, chain: seq<Word>, scope: seq<Word>, x: Word,
                              taken: set<NameIdx>) {
    forall n: string ::
      ProbeName(names, NameIdx(app, n))
      == if SearchName(own, chain, scope, n).Some? then SearchName(own, chain, scope, n)
         else if NameIdx(x, n) in taken then SearchName(own, [x], scope, n) else None
  }

  /** Copies to `app` the names of its ancestor `x`, unless a nearer
      application has the name or has renamed the code. */
  method InheritNames(codes: Codes, names: Names, ghost own: Own, app: Word, ghost chain: seq<Word>, ghost scope: seq<Word>,
                      x: Word, from: set<NameIdx>)
    returns (after: Names)
    requires app != x && Consistent(own) && chain + [x] <= scope
    requires CodesFor(codes, own, app, chain + [x]) && NamesFor(names, own, app, chain, scope)
    requires from == set k | k in own.names && k.app == x
    requires forall k :: k in from ==> ProbeName(names, k) == ProbeName(own.names, k)
    ensures NamesFor(after, own, app, chain + [x], scope) && OtherNamesKept(names, after, app)
  {
    after := names;
    var todo := from;
    while todo != {}
      invariant todo <= from
      invariant TakingNames(after, own, app, chain, scope, x, from - todo)
      invariant OtherNamesKept(names, after, app)
    {
      var idx :| idx in todo;
      assert ProbeName(after, idx) == ProbeName(own.names, idx);
      var avp := after[idx];
      Resolved(codes, own, app, chain, scope, x, avp, idx.name);
      var resolved := codes[CodeIdx(app, avp.code, avp.vendor)];
      var child := NameIdx(app, idx.name);
      if resolved.name == avp.name && child !in after {
        after := after[child := avp];
      }
      todo := todo - {idx};
    }
    forall n: string
      ensures ProbeName(after, NameIdx(app, n)) == SearchName(own, chain + [x], scope, n)
    {
      SearchNameAppend(own, chain, [x], scope, n);
      if NameIdx(x, n) !in own.names { assert SearchName(own, [x], scope, n) == SearchName(own, [x][1..], scope, n); }
    }
  }

  /** The code of an ancestor's name is resolved by then, as it will be in the end. */
  lemma Resolved(codes: Codes, own: Own, app: Word, chain: seq<Word>, scope: seq<Word>, x: Word, d: Def, n: string)
    requires Consistent(own) && CodesFor(codes, own, app, chain + [x]) && chain + [x] <= scope
    requires ProbeName(own.names, NameIdx(x, n)) == Some(d)
    ensures var r := Probe(codes, CodeIdx(app, d.code, d.vendor));
            && r.Some? && d.name == n
            && SearchName(own, [x], scope, n) == if r.value.name == d.name then Some(d) else None
  {
    var near := chain + [x];
    SearchAppend(own.codes, chain, [x], d.code, d.vendor);
    SearchAppend(own.codes, near, scope[|near|..], d.code, d.vendor);
    assert near + scope[|near|..] == scope;
    assert Probe(codes, CodeIdx(app, d.code, d.vendor)) == Search(own.codes, near, d.code, d.vendor);
    assert SearchName(own, [x], scope, n)
           == if KeepsName(own.codes, scope, d) then Some(d) else SearchName(own, [x][1..], scope, n);
  }

  /** An application's own entries, or with `full` its whole chain. */
  ghost predicate ViewOf(codes: Codes, names: Names, own: Own, g: Graph, app: Word, full: bool) {
    var chain := if full then Chain(g, app) else [app];
    CodesFor(codes, own, app, chain) && NamesFor(names, own, app, chain, Chain(g, app))
  }

  /** Own definitions stay in place in every view. */
  lemma OwnStays(codes: Codes, names: Names, own: Own, g: Graph, app: Word, full: bool)
    requires Consistent(own) && ViewOf(codes, names, own, g, app, full)
    ensures forall k :: k in own.codes && k.app == app ==> Probe(codes, k) == Probe(own.codes, k)
    ensures forall k :: k in own.names && k.app == app ==> ProbeName(names, k) == ProbeName(own.names, k)
  {
    forall k | k in own.codes && k.app == app ensures Probe(codes, k) == Probe(own.codes, k) {
      assert k == CodeIdx(app, k.code, k.vendor);
    }
    forall k | k in own.names && k.app == app ensures ProbeName(names, k) == ProbeName(own.names, k) {
      assert k == NameIdx(app, k.name);
      var d := own.names[k];
      assert Search(own.codes, Chain(g, app), d.code, d.vendor) == Some(d);
    }
  }

  /** Before merging every application sees exactly its own definitions. */
  lemma OwnView(own: Own, g: Graph, app: Word)
    requires Consistent(own)
    ensures ViewOf(own.codes, own.names, own, g, app, false)
  {
    forall c: Word, v: Word ensures Probe(own.codes, CodeIdx(app, c, v)) == Search(own.codes, [app], c, v) {
      assert Search(own.codes, [app][1..], c, v) == None;
    }
    forall n: string ensures ProbeName(own.names, NameIdx(app, n)) == SearchName(own, [app], Chain(g, app), n) {
      if NameIdx(app, n) in own.names {
        var d := own.names[NameIdx(app, n)];
        assert Search(own.codes, Chain(g, app), d.code, d.vendor) == Some(d);
      } else {
        assert SearchName(own, [app][1..], Chain(g, app), n) == None;
      }
    }
  }

  /** The application's own definitions are in place. */
  ghost predicate OwnPresent(codes: Codes, names: Names, own: Own, x: Word) {
    && (forall k :: k in own.codes && k.app == x ==> Probe(codes, k) == Probe(own.codes, k))
    && (forall k :: k in own.names && k.app == x ==> ProbeName(names, k) == ProbeName(own.names, k))
  }

  /** One ancestor's definitions, where nothing nearer has a say. */
  method InheritOne(codes: Codes, names: Names, own: Own, ghost g: Graph, app: Word, ghost chain: seq<Word>, x: Word)
    returns (codes': Codes, names': Names)
    requires Consistent(own) && x != app && chain + [x] <= Chain(g, app) && OwnPresent(codes, names, own, x)
    requires CodesFor(codes, own, app, chain) && NamesFor(names, own, app, chain, Chain(g, app))
    ensures CodesFor(codes', own, app, chain + [x]) && NamesFor(names', own, app, chain + [x], Chain(g, app))
    ensures OthersKept(codes, codes', app) && OtherNamesKept(names, names', app)
  {
    codes' := InheritCodes(codes, own, app, chain, x, set k | k in own.codes && k.app == x);
    names' := InheritNames(codes', names, own, app, chain, Chain(g, app), x, set k | k in own.names && k.app == x);
  }

  lemma StillPresent(codes: Codes, names: Names, after: Codes, afterNames: Names, own: Own, g: Graph, x: Word, full: bool, app: Word)
    requires Consistent(own) && ViewOf(codes, names, own, g, x, full) && x != app
    requires OthersKept(codes, after, app) && OtherNamesKept(names, afterNames, app)
    ensures OwnPresent(after, afterNames, own, x)
  {
    OwnStays(codes, names, own, g, x, full);
  }

  /** The ancestor loop for one application. */
  method InheritAll(codes: Codes, names: Names, own: Own, g: Graph, app: Word, ghost done: set<Word>)
    returns (codes': Codes, names': Names)
    requires app != 0 && Consistent(own) && ParentsOf(g, 0) == []
    requires app !in done && forall a: Word :: ViewOf(codes, names, own, g, a, a in done)
    ensures ViewOf(codes', names', own, g, app, true)
    ensures OthersKept(codes, codes', app) && OtherNamesKept(names, names', app)
  {
    codes', names' := codes, names;
    var ancestors := AncestorApps(g, app);
    AncestorsComplete(g, app);
    assert ViewOf(codes, names, own, g, app, app in done);
    ghost var chain := [app];
    for i := 0 to |ancestors|
      invariant chain == [app] + ancestors[..i]
      invariant CodesFor(codes', own, app, chain) && NamesFor(names', own, app, chain, Chain(g, app))
      invariant OthersKept(codes, codes', app) && OtherNamesKept(names, names', app)
    {
      var x := ancestors[i];
      assert x != app by { assert i < |ancestors| - 1 ==> x in ancestors[..|ancestors| - 1]; }
      assert chain + [x] == [app] + ancestors[..i + 1] && chain + [x] <= Chain(g, app);
      StillPresent(codes, names, codes', names', own, g, x, x in done, app);
      codes', names' := InheritOne(codes', names', own, g, app, chain, x);
      chain := chain + [x];
    }
    assert chain == Chain(g, app);
  }

  /** mergeInheritedAVPs, up to its final comparison of the direct parents:
      whatever the iteration order, every index answers its search. */
  method MergeInheritedAVPs(own: Own, g: Graph, declared: set<Word>) returns (codes: Codes, names: Names)
    requires Consistent(own) && ParentsOf(g, 0) == []
    ensures Merged(codes, names, own, g, declared)
  {
    codes, names := own.codes, own.names;
    var todo := Owners(own, declared) - {0};
    ghost var done: set<Word> := {};
    forall a: Word ensures ViewOf(codes, names, own, g, a, a in done) {
      OwnView(own, g, a);
    }
    while todo != {}
      invariant todo == Owners(own, declared) - {0} - done && 0 !in done && done <= Owners(own, declared)
      invariant forall a: Word :: ViewOf(codes, names, own, g, a, a in done)
    {
      var app :| app in todo;
      ghost var before, beforeNames := codes, names;
      codes, names := InheritAll(codes, names, own, g, app, done);
      forall a: Word ensures ViewOf(codes, names, own, g, a, a in done + {app}) {
        assert ViewOf(before, beforeNames, own, g, a, a in done);
        if a != app { SameView(before, beforeNames, codes, names, own, g, app, a, a in done); }
      }
      todo, done := todo - {app}, done + {app};
    }
    forall app: Word
      ensures var chain := if app in Owners(own, declared) then Chain(g, app) else [];
              CodesFor(codes, own, app, chain) && NamesFor(names, own, app, chain, chain)
    {
      assert ViewOf(codes, names, own, g, app, app in done);
      if app !in Owners(own, declared) {
        assert app !in done;
        NothingOwned(codes, names, own, g, declared, app);
      } else if app == 0 {
        assert Chain(g, 0) == [0];
      } else {
        assert app !in Owners(own, declared) - {0} - done && app in done;
      }
    }
  }

  lemma SameView(codes: Codes, names: Names, codes': Codes, names': Names, own: Own, g: Graph, app: Word, a: Word, full: bool)
    requires ViewOf(codes, names, own, g, a, full) && a != app
    requires OthersKept(codes, codes', app) && OtherNamesKept(names, names', app)
    ensures ViewOf(codes', names', own, g, a, full)
  {
    var chain := if full then Chain(g, a) else [a];
    forall c: Word, v: Word ensures Probe(codes', CodeIdx(a, c, v)) == Search(own.codes, chain, c, v) {
      assert Probe(codes, CodeIdx(a, c, v)) == Search(own.codes, chain, c, v);
    }
    forall n: string ensures ProbeName(names', NameIdx(a, n)) == SearchName(own, chain, Chain(g, a), n) {
      assert ProbeName(names, NameIdx(a, n)) == SearchName(own, chain, Chain(g, a), n);
    }
  }

  lemma NothingOwned(codes: Codes, names: Names, own: Own, g: Graph, declared: set<Word>, app: Word)
    requires app !in Owners(own, declared) && ViewOf(codes, names, own, g, app, false)
    ensures CodesFor(codes, own, app, []) && NamesFor(names, own, app, [], [])
  {
    forall c: Word, v: Word ensures Probe(codes, CodeIdx(app, c, v)) == None {
      assert CodeIdx(app, c, v) !in own.codes;
      assert Search(own.codes, [app], c, v) == Search(own.codes, [app][1..], c, v);
    }
    forall n: string ensures ProbeName(names, NameIdx(app, n)) == None {
      assert NameIdx(app, n) !in own.names;
      assert SearchName(own, [app], Chain(g, app), n) == SearchName(own, [app][1..], Chain(g, app), n);
    }
  }
}
