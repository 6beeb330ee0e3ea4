/** A constant number of map probes answers what a search of the inheritance
    graph would: the lookups of a merged Snapshot (diam/dict/util.go). */
module DictionaryLookup {
  import opened Octets
  import opened Datatypes
  import opened Inheritance
  import opened Ancestry
  import opened Dictionary

  /** A Snapshot that build accepted, as far as lookups are concerned. */
  ghost predicate Published(codes: Codes, names: Names, own: Own, g: Graph, declared: set<Word>) {
    && Consistent(own)
    && (forall id :: id in g ==> id in declared)
    && ParentsOf(g, 0) == []
    && Merged(codes, names, own, g, declared)
  }

  lemma EndsInBase(g: Graph, app: Word) returns (near: seq<Word>)
    requires app != 0
    ensures Chain(g, app) == near + [0]
    ensures ParentsOf(g, app) == [] ==> Chain(g, app) == [app, 0]
  {
    AppendNewListed(g, app, [], ParentsOf(g, app));
    near := [app] + Expand(g, app, AppendNew([], ParentsOf(g, app), app), 0);
  }

  lemma NotOwned(own: Own, declared: set<Word>, app: Word, c: Word, v: Word, n: string)
    requires app !in Owners(own, declared)
    ensures CodeIdx(app, c, v) !in own.codes && NameIdx(app, n) !in own.names && app !in declared
  {
  }

  /** Index refines search: for every application id, declared or not, the two
      probes return the first definition along application, breadth-first
      ancestors and base. */
  lemma LookupIsSearch(codes: Codes, names: Names, own: Own, g: Graph, declared: set<Word>, app: Word, c: Word, v: Word)
    requires Published(codes, names, own, g, declared)
    ensures LookupAVP(codes, app, c, v) == Search(own.codes, Chain(g, app), c, v)
  {
    var all := Owners(own, declared);
    BaseProbe(codes, names, own, g, declared, c, v);
    assert CodesFor(codes, own, app, if app in all then Chain(g, app) else []);
    assert Probe(codes, CodeIdx(app, c, v)) == Search(own.codes, if app in all then Chain(g, app) else [], c, v);
    if app != 0 {
      var near := EndsInBase(g, app);
      if app in all {
        SearchAppend(own.codes, near, [0], c, v);
      } else {
        NotOwned(own, declared, app, c, v, "");
        assert [app, 0][1..] == [0];
      }
    }
  }

  lemma BaseProbe(codes: Codes, names: Names, own: Own, g: Graph, declared: set<Word>, c: Word, v: Word)
    requires Published(codes, names, own, g, declared)
    ensures Probe(codes, CodeIdx(0, c, v)) == Search(own.codes, [0], c, v) && Chain(g, 0) == [0]
  {
    var chain := if 0 in Owners(own, declared) then Chain(g, 0) else [];
    assert CodesFor(codes, own, 0, chain);
    if 0 !in Owners(own, declared) { NotOwned(own, declared, 0, c, v, ""); }
  }

  lemma BaseName(codes: Codes, names: Names, own: Own, g: Graph, declared: set<Word>, n: string)
    requires Published(codes, names, own, g, declared)
    ensures ProbeName(names, NameIdx(0, n)) == ProbeName(own.names, NameIdx(0, n))
  {
    var chain := if 0 in Owners(own, declared) then Chain(g, 0) else [];
    assert NamesFor(names, own, 0, chain, chain);
    if 0 !in Owners(own, declared) {
      NotOwned(own, declared, 0, 0, 0, n);
    } else {
      assert chain == [0];
      assert SearchName(own, [0], [0], n) == ProbeName(own.names, NameIdx(0, n)) by {
        if NameIdx(0, n) in own.names {
          var d := own.names[NameIdx(0, n)];
          assert Search(own.codes, [0], d.code, d.vendor) == Some(d);
        } else {
          assert SearchName(own, [0], [0], n) == SearchName(own, [0][1..], [0], n);
        }
      }
    }
  }

  /** The same for names: the search skips names whose code was renamed nearer. */
  lemma FindByNameIsSearch(codes: Codes, names: Names, own: Own, g: Graph, declared: set<Word>, app: Word, n: string)
    requires Published(codes, names, own, g, declared)
    ensures FindAVPByName(codes, names, app, n) == SearchName(own, Chain(g, app), Chain(g, app), n)
  {
    var chain := Chain(g, app);
    var there := SearchName(own, chain, chain, n);
    NearName(codes, names, own, g, declared, app, n);
    if NamedThere(codes, names, app, app, n).None? {
      BaseName(codes, names, own, g, declared, n);
      if NameIdx(0, n) in own.names {
        var d := own.names[NameIdx(0, n)];
        LookupIsSearch(codes, names, own, g, declared, app, d.code, d.vendor);
        BaseFallback(own, g, declared, app, n);
      } else if app != 0 {
        NoBaseName(own, g, declared, app, n);
      }
    }
  }

  /** In an application with an index of its own, its name entry is the answer. */
  lemma NearName(codes: Codes, names: Names, own: Own, g: Graph, declared: set<Word>, app: Word, n: string)
    requires Published(codes, names, own, g, declared)
    ensures NamedThere(codes, names, app, app, n)
            == if app in Owners(own, declared) then SearchName(own, Chain(g, app), Chain(g, app), n) else None
  {
    var chain := if app in Owners(own, declared) then Chain(g, app) else [];
    assert NamesFor(names, own, app, chain, chain);
    assert ProbeName(names, NameIdx(app, n)) == SearchName(own, chain, chain, n);
    NameIsCode(own, [], chain, n);
    assert [] + chain == chain;
    SearchNameFound(own, chain, chain, n);
    if SearchName(own, chain, chain, n).Some? {
      var d := SearchName(own, chain, chain, n).value;
      LookupIsSearch(codes, names, own, g, declared, app, d.code, d.vendor);
    }
  }

  /** A base name that resolves to itself in the application is found there. */
  lemma BaseFallback(own: Own, g: Graph, declared: set<Word>, app: Word, n: string)
    requires Consistent(own) && NameIdx(0, n) in own.names && (forall id :: id in g ==> id in declared)
    ensures var d := own.names[NameIdx(0, n)];
            var chain := Chain(g, app);
            && (app in Owners(own, declared) && KeepsName(own.codes, chain, d) ==> SearchName(own, chain, chain, n).Some?)
            && (app !in Owners(own, declared) ==>
                  && Search(own.codes, chain, d.code, d.vendor) == Some(d)
                  && SearchName(own, chain, chain, n) == Some(d))
  {
    var d := own.names[NameIdx(0, n)];
    var chain := Chain(g, app);
    if app == 0 {
      assert chain == [0];
    } else {
      var near := EndsInBase(g, app);
      if app in Owners(own, declared) {
        SearchNameAppend(own, near, [0], chain, n);
      } else {
        NotOwned(own, declared, app, d.code, d.vendor, n);
        assert chain == [app, 0] && chain[1..] == [0];
        assert Search(own.codes, chain, d.code, d.vendor) == Search(own.codes, [0], d.code, d.vendor);
        assert SearchName(own, chain, chain, n) == SearchName(own, [0], chain, n);
      }
    }
  }

  lemma NoBaseName(own: Own, g: Graph, declared: set<Word>, app: Word, n: string)
    requires app != 0 && NameIdx(0, n) !in own.names && (forall id :: id in g ==> id in declared)
    ensures app !in Owners(own, declared) ==> SearchName(own, Chain(g, app), Chain(g, app), n).None?
  {
    if app !in Owners(own, declared) {
      NotOwned(own, declared, app, 0, 0, n);
      var near := EndsInBase(g, app);
      var chain := Chain(g, app);
      assert chain == [app, 0] && chain[1..] == [0];
      assert SearchName(own, chain, chain, n) == SearchName(own, [0], chain, n) == SearchName(own, [0][1..], chain, n);
    }
  }

  /** Names and codes agree: what a name finds is the very definition its code
      and vendor resolve to, and it carries that name. */
  lemma NamesAgreeWithCodes(codes: Codes, names: Names, own: Own, g: Graph, declared: set<Word>, app: Word, n: string)
    requires Published(codes, names, own, g, declared)
    ensures var r := FindAVPByName(codes, names, app, n);
            r.Some? ==> r.value.name == n && LookupAVP(codes, app, r.value.code, r.value.vendor) == r
  {
    var chain := Chain(g, app);
    FindByNameIsSearch(codes, names, own, g, declared, app, n);
    SearchNameFound(own, chain, chain, n);
    NameIsCode(own, [], chain, n);
    assert [] + chain == chain;
    var r := FindAVPByName(codes, names, app, n);
    if r.Some? { LookupIsSearch(codes, names, own, g, declared, app, r.value.code, r.value.vendor); }
  }

  /** A nearer rename hides the old name everywhere below, base included: no
      definition of that code and vendor is found by it. */
  lemma RenameHidesName(codes: Codes, names: Names, own: Own, g: Graph, declared: set<Word>, app: Word,
                        code: Word, vendor: Word, was: string)
    requires Published(codes, names, own, g, declared)
    requires var r := LookupAVP(codes, app, code, vendor); r.Some? && r.value.name != was
    ensures var r := FindAVPByName(codes, names, app, was);
            r.Some? ==> r.value.code != code || r.value.vendor != vendor
  {
    NamesAgreeWithCodes(codes, names, own, g, declared, app, was);
  }
}
