/** Building a Snapshot from its sources (diam/dict/snapshot.go, build): which
    sources are accepted, and what is published for them. */
module DictionaryBuild {
  import opened Octets
  import opened Inheritance
  import opened Ancestry
  import opened Dictionary
  import opened DictionaryLookup
  import opened DictionaryRules
  import DictionaryMerge

  // ---- Loading -----------------------------------------------------------------

  datatype Load = Load(parents: Graph, declared: set<Word>, commands: map<CommandIdx, Command>, codes: Codes)

  function AddParents(g: Graph, id: Word, parents: seq<Word>): Graph {
    if parents == [] then g
    else
      var h, p := AddParents(g, id, parents[..|parents| - 1]), parents[|parents| - 1];
      if p in ParentsOf(h, id) then h else h[id := ParentsOf(h, id) + [p]]
  }

  /** None when an application defines a command twice. */
  function AddCommands(commands: map<CommandIdx, Command>, id: Word, more: seq<Command>): Option<map<CommandIdx, Command>> {
    if more == [] then Some(commands)
    else
      match AddCommands(commands, id, more[..|more| - 1])
      case None => None
      case Some(m) =>
        var idx := CommandIdx(id, more[|more| - 1].code);
        if idx in m then None else Some(m[idx := more[|more| - 1]])
  }

  function KeyOf(id: Word, d: Def): CodeIdx {
    CodeIdx(id, d.code, d.vendor)
  }

  function AddDefs(codes: Codes, id: Word, defs: seq<Def>): Codes {
    if defs == [] then codes
    else AddDefs(codes, id, defs[..|defs| - 1])[KeyOf(id, defs[|defs| - 1]) := defs[|defs| - 1]]
  }

  function AddApp(l: Load, app: App): Option<Load> {
    match AddCommands(l.commands, app.id, app.commands)
    case None => None
    case Some(commands) =>
      Some(Load(AddParents(l.parents, app.id, app.inherits), l.declared + {app.id}, commands, AddDefs(l.codes, app.id, app.avps)))
  }

  /** The dictionaries' applications, in load order. */
  function LoadApps(apps: seq<App>): Option<Load> {
    if apps == [] then Some(Load(map[], {}, map[], map[]))
    else
      match LoadApps(apps[..|apps| - 1])
      case None => None
      case Some(l) => AddApp(l, apps[|apps| - 1])
  }

  /** The last definition of a code in load order, found from the end. */
  function LastIn(defs: seq<Def>, id: Word, k: CodeIdx): Option<Def> {
    if defs == [] then None
    else if KeyOf(id, defs[|defs| - 1]) == k then Some(defs[|defs| - 1])
    else LastIn(defs[..|defs| - 1], id, k)
  }

  function LastDefinition(apps: seq<App>, k: CodeIdx): Option<Def> {
    if apps == [] then None
    else
      var last := apps[|apps| - 1];
      var there := LastIn(last.avps, last.id, k);
      if there.Some? then there else LastDefinition(apps[..|apps| - 1], k)
  }

  lemma {:induction false} AddDefsProbe(codes: Codes, id: Word, defs: seq<Def>, k: CodeIdx)
    ensures Probe(AddDefs(codes, id, defs), k) == if LastIn(defs, id, k).Some? then LastIn(defs, id, k) else Probe(codes, k)
  {
    if defs != [] { AddDefsProbe(codes, id, defs[..|defs| - 1], k); }
  }

  /** A later definition of an application replaces an earlier one with the same key. */
  lemma {:induction false} LoadKeepsLast(apps: seq<App>, k: CodeIdx)
    requires LoadApps(apps).Some?
    ensures Probe(LoadApps(apps).value.codes, k) == LastDefinition(apps, k)
  {
    if apps != [] {
      var last := apps[|apps| - 1];
      LoadKeepsLast(apps[..|apps| - 1], k);
      AddDefsProbe(LoadApps(apps[..|apps| - 1]).value.codes, last.id, last.avps, k);
    }
  }

  ghost predicate WellKeyed(l: Load) {
    && (forall k :: k in l.codes ==> l.codes[k].code == k.code && l.codes[k].vendor == k.vendor)
    && (forall id :: id in l.parents ==> id in l.declared)
  }

  lemma {:induction false} AddDefsKeyed(codes: Codes, id: Word, defs: seq<Def>)
    requires forall k :: k in codes ==> codes[k].code == k.code && codes[k].vendor == k.vendor
    ensures var more := AddDefs(codes, id, defs);
            forall k :: k in more ==> more[k].code == k.code && more[k].vendor == k.vendor
  {
    if defs != [] { AddDefsKeyed(codes, id, defs[..|defs| - 1]); }
  }

  lemma {:induction false} AddParentsKeys(g: Graph, id: Word, parents: seq<Word>)
    ensures forall x :: x in AddParents(g, id, parents) ==> x in g || x == id
  {
    if parents != [] { AddParentsKeys(g, id, parents[..|parents| - 1]); }
  }

  lemma {:induction false} LoadWellKeyed(apps: seq<App>)
    requires LoadApps(apps).Some?
    ensures WellKeyed(LoadApps(apps).value)
  {
    if apps != [] {
      var last, l := apps[|apps| - 1], LoadApps(apps[..|apps| - 1]).value;
      LoadWellKeyed(apps[..|apps| - 1]);
      AddDefsKeyed(l.codes, last.id, last.avps);
      AddParentsKeys(l.parents, last.id, last.inherits);
    }
  }

  // ---- Names and registrations -----------------------------------------------------

  ghost predicate NamesUnique(codes: Codes) {
    forall j, k :: j in codes && k in codes && j.app == k.app && codes[j].name == codes[k].name ==> j == k
  }

  /** The own-name loop of build: the codes in any order, refusing a clash. */
  method IndexNames(codes: Codes) returns (r: Option<Names>)
    requires forall k :: k in codes ==> codes[k].code == k.code && codes[k].vendor == k.vendor
    ensures r.Some? <==> NamesUnique(codes)
    ensures r.Some? ==> Consistent(Own(codes, r.value))
  {
    var names: Names := map[];
    var todo := codes.Keys;
    while todo != {}
      invariant todo <= codes.Keys
      invariant forall k :: k in codes && k !in todo ==> ProbeName(names, NameIdx(k.app, codes[k].name)) == Some(codes[k])
      invariant forall n :: n in names ==>
                  var k := CodeIdx(n.app, names[n].code, names[n].vendor);
                  k in codes && k !in todo && codes[k] == names[n] && names[n].name == n.name
      invariant forall j, k :: j in codes && k in codes && j !in todo && k !in todo && j.app == k.app && codes[j].name == codes[k].name
                  ==> j == k
    {
      var k :| k in todo;
      var n := NameIdx(k.app, codes[k].name);
      if n in names {
        assert !NamesUnique(codes) by {
          var j := CodeIdx(n.app, names[n].code, names[n].vendor);
          assert j in codes && j != k && codes[j].name == codes[k].name;
        }
        return None;
      }
      names := names[n := codes[k]];
      todo := todo - {k};
    }
    r := Some(names);
  }

  lemma NamesDetermined(codes: Codes, a: Names, b: Names)
    requires Consistent(Own(codes, a)) && Consistent(Own(codes, b))
    ensures a == b
  {
    forall n: NameIdx ensures ProbeName(a, n) == ProbeName(b, n) {
      if n in a {
        var k := CodeIdx(n.app, a[n].code, a[n].vendor);
        assert Probe(codes, k) == Some(a[n]);
      }
      if n in b {
        var k := CodeIdx(n.app, b[n].code, b[n].vendor);
        assert Probe(codes, k) == Some(b[n]);
      }
    }
    assert forall n :: n in a <==> ProbeName(a, n).Some?;
    assert forall n :: n in b <==> ProbeName(b, n).Some?;
  }

  /** sameRule: equal meaning, an unbounded maximum being unbounded however written. */
  predicate SameRule(a: Rule, b: Rule) {
    var boundedA, boundedB := a.maxSet || a.max > 0, b.maxSet || b.max > 0;
    && a.(max := b.max, maxSet := b.maxSet) == b
    && boundedA == boundedB && (boundedA ==> a.max == b.max)
  }

  /** sameAVP: equal meaning. */
  predicate SameAVP(a: Def, b: Def) {
    && a.(rules := b.rules) == b
    && |a.rules| == |b.rules|
    && forall i :: 0 <= i < |a.rules| ==> SameRule(a.rules[i], b.rules[i])
  }

  predicate Conflicts(own: Own, r: Registration) {
    || (KeyOf(r.app, r.def) in own.codes && !SameAVP(own.codes[KeyOf(r.app, r.def)], r.def))
    || (NameIdx(r.app, r.def.name) in own.names && !SameAVP(own.names[NameIdx(r.app, r.def.name)], r.def))
  }

  function Registered(own: Own, r: Registration): Own {
    Own(own.codes[KeyOf(r.app, r.def) := r.def], own.names[NameIdx(r.app, r.def.name) := r.def])
  }

  /** The registrations in order; None when one changes a definition's meaning. */
  function Register(own: Own, regs: seq<Registration>): Option<Own> {
    if regs == [] then Some(own)
    else
      match Register(own, regs[..|regs| - 1])
      case None => None
      case Some(o) => if Conflicts(o, regs[|regs| - 1]) then None else Some(Registered(o, regs[|regs| - 1]))
  }

  lemma RegisteredConsistent(own: Own, r: Registration)
    requires Consistent(own) && !Conflicts(own, r)
    ensures Consistent(Registered(own, r))
  {
    var after := Registered(own, r);
    forall k | k in own.codes && NameIdx(k.app, own.codes[k].name) == NameIdx(r.app, r.def.name)
      ensures k == KeyOf(r.app, r.def)
    {
      assert own.names[NameIdx(r.app, r.def.name)] == own.codes[k];
    }
    forall n | n in own.names && CodeIdx(n.app, own.names[n].code, own.names[n].vendor) == KeyOf(r.app, r.def)
      ensures n == NameIdx(r.app, r.def.name)
    {
      assert own.codes[KeyOf(r.app, r.def)] == own.names[n];
    }
  }

  lemma {:induction false} RegisterConsistent(own: Own, regs: seq<Registration>)
    requires Consistent(own) && Register(own, regs).Some?
    ensures Consistent(Register(own, regs).value)
  {
    if regs != [] {
      RegisterConsistent(own, regs[..|regs| - 1]);
      RegisteredConsistent(Register(own, regs[..|regs| - 1]).value, regs[|regs| - 1]);
    }
  }

  // ---- Acceptance ------------------------------------------------------------------

  /** Everything build requires of its sources, and the indexes it publishes for them. */
  ghost predicate Accepts(apps: seq<App>, regs: seq<Registration>, l: Load, own: Own, ix: Index) {
    && LoadApps(apps) == Some(l)
    && Declared(l.parents, l.declared) && !Cyclic(l.parents)
    && OwnOf(l.codes, regs, own)
    && ix.commands == l.commands && Merged(ix.codes, ix.names, own, l.parents, l.declared)
    && (forall app :: app in l.parents ==> ParentsAgree(ix, l.parents[app], app, own.names))
    && AllRulesResolve(ix, l.declared)
  }

  /** Loaded names index the loaded codes; the registrations then apply. */
  ghost predicate OwnOf(codes: Codes, regs: seq<Registration>, own: Own) {
    exists names :: Consistent(Own(codes, names)) && Register(Own(codes, names), regs) == Some(own)
  }

  lemma OwnNamesUnique(codes: Codes, regs: seq<Registration>, own: Own)
    ensures OwnOf(codes, regs, own) ==> NamesUnique(codes)
  {
    if OwnOf(codes, regs, own) {
      var names :| Consistent(Own(codes, names)) && Register(Own(codes, names), regs) == Some(own);
      forall j, k | j in codes && k in codes && j.app == k.app && codes[j].name == codes[k].name ensures j == k {
        assert ProbeName(names, NameIdx(j.app, codes[j].name)) == Some(codes[j]);
        assert ProbeName(names, NameIdx(k.app, codes[k].name)) == Some(codes[k]);
      }
    }
  }

  lemma OwnDetermined(codes: Codes, regs: seq<Registration>, a: Own, names: Names)
    requires OwnOf(codes, regs, a) && Consistent(Own(codes, names))
    ensures Register(Own(codes, names), regs) == Some(a)
  {
    var other :| Consistent(Own(codes, other)) && Register(Own(codes, other), regs) == Some(a);
    NamesDetermined(codes, names, other);
  }

  /** Merging has one outcome: no iteration order can change an index. */
  lemma MergeDetermined(c1: Codes, n1: Names, c2: Codes, n2: Names, own: Own, g: Graph, declared: set<Word>)
    requires Merged(c1, n1, own, g, declared) && Merged(c2, n2, own, g, declared)
    ensures c1 == c2 && n1 == n2
  {
    forall k: CodeIdx ensures Probe(c1, k) == Probe(c2, k) {
      var chain := if k.app in Owners(own, declared) then Chain(g, k.app) else [];
      assert CodesFor(c1, own, k.app, chain) && CodesFor(c2, own, k.app, chain);
      assert k == CodeIdx(k.app, k.code, k.vendor);
    }
    forall n: NameIdx ensures ProbeName(n1, n) == ProbeName(n2, n) {
      var chain := if n.app in Owners(own, declared) then Chain(g, n.app) else [];
      assert NamesFor(n1, own, n.app, chain, chain) && NamesFor(n2, own, n.app, chain, chain);
      assert n == NameIdx(n.app, n.name);
    }
    assert forall k :: k in c1 <==> Probe(c1, k).Some?;
    assert forall k :: k in c2 <==> Probe(c2, k).Some?;
    assert forall n :: n in n1 <==> ProbeName(n1, n).Some?;
    assert forall n :: n in n2 <==> ProbeName(n2, n).Some?;
  }

  /** What is accepted is ready for every lookup theorem. */
  lemma AcceptedIsPublished(apps: seq<App>, regs: seq<Registration>, l: Load, own: Own, ix: Index)
    requires Accepts(apps, regs, l, own, ix)
    ensures Published(ix.codes, ix.names, own, l.parents, l.declared)
  {
    LoadWellKeyed(apps);
    var names :| Consistent(Own(l.codes, names)) && Register(Own(l.codes, names), regs) == Some(own);
    RegisterConsistent(Own(l.codes, names), regs);
  }

  method IndexParents(g: Graph, id: Word, inherits: seq<Word>) returns (parents: Graph)
    ensures parents == AddParents(g, id, inherits)
  {
    parents := g;
    for i := 0 to |inherits|
      invariant parents == AddParents(g, id, inherits[..i])
    {
      assert inherits[..i + 1][..i] == inherits[..i];
      if inherits[i] !in ParentsOf(parents, id) {
        parents := parents[id := ParentsOf(parents, id) + [inherits[i]]];
      }
    }
    assert inherits[..|inherits|] == inherits;
  }

  /** The state of a dictionary Parser at one point in time. */
  class Snapshot {
    const apps: seq<App>
    const regs: seq<Registration>
    var load: Load
    var avpcode: Codes
    var avpname: Names
    ghost var own: Own

    constructor (apps: seq<App>, regs: seq<Registration>)
      ensures this.apps == apps && this.regs == regs
    {
      this.apps, this.regs := apps, regs;
      load := Load(map[], {}, map[], map[]);
      avpcode, avpname := map[], map[];
      own := Own(map[], map[]);
    }

    function Lookups(): Index
      reads this
    {
      Index(avpcode, avpname, load.commands)
    }

    /** The file loop of build, one application after the other. */
    method IndexFiles() returns (ok: bool)
      modifies this
      ensures ok <==> LoadApps(apps).Some?
      ensures ok ==> load == LoadApps(apps).value
    {
      load := Load(map[], {}, map[], map[]);
      var i := 0;
      while i < |apps|
        invariant i <= |apps| && LoadApps(apps[..i]) == Some(load)
      {
        assert apps[..i + 1][..i] == apps[..i];
        ok := IndexApp(apps[i]);
        if !ok {
          NoneStays(apps, i + 1);
          return;
        }
        i := i + 1;
      }
      assert apps[..i] == apps;
      ok := true;
    }

    /** One application: its parents, its commands, then its AVPs. */
    method IndexApp(app: App) returns (ok: bool)
      modifies this`load
      ensures ok <==> AddApp(old(load), app).Some?
      ensures ok ==> load == AddApp(old(load), app).value
    {
      var parents := IndexParents(load.parents, app.id, app.inherits);
      var commands, codes := load.commands, load.codes;
      for i := 0 to |app.commands|
        invariant AddCommands(load.commands, app.id, app.commands[..i]) == Some(commands)
      {
        assert app.commands[..i + 1][..i] == app.commands[..i];
        var idx := CommandIdx(app.id, app.commands[i].code);
        if idx in commands {
          NoCommands(load.commands, app.id, app.commands, i + 1);
          return false;
        }
        commands := commands[idx := app.commands[i]];
      }
      for i := 0 to |app.avps|
        invariant codes == AddDefs(load.codes, app.id, app.avps[..i])
      {
        assert app.avps[..i + 1][..i] == app.avps[..i];
        codes := codes[KeyOf(app.id, app.avps[i]) := app.avps[i]];
      }
      assert app.commands[..|app.commands|] == app.commands && app.avps[..|app.avps|] == app.avps;
      load := Load(parents, load.declared + {app.id}, commands, codes);
      ok := true;
    }

    /** The registration loop of build. */
    method IndexRegistrations() returns (ok: bool)
      modifies this
      ensures load == old(load)
      ensures var start := Own(old(avpcode), old(avpname));
              && (ok <==> Register(start, regs).Some?)
              && (ok ==> Own(avpcode, avpname) == Register(start, regs).value)
    {
      ghost var start := Own(avpcode, avpname);
      var i := 0;
      while i < |regs|
        invariant i <= |regs| && load == old(load)
        invariant Register(start, regs[..i]) == Some(Own(avpcode, avpname))
      {
        assert regs[..i + 1][..i] == regs[..i];
        if Conflicts(Own(avpcode, avpname), regs[i]) {
          NoneRegistered(start, regs, i + 1);
          return false;
        }
        var r := Registered(Own(avpcode, avpname), regs[i]);
        avpcode, avpname := r.codes, r.names;
        i := i + 1;
      }
      assert regs[..i] == regs;
      ok := true;
    }

    /** build: it succeeds exactly on acceptable sources, and what it then
        publishes is the one Snapshot that answers for them. */
    method Build() returns (ok: bool)
      modifies this
      ensures ok ==> Accepts(apps, regs, load, own, Lookups())
      ensures !ok ==> forall l, o, ix :: !Accepts(apps, regs, l, o, ix)
    {
      ok := IndexFiles();
      if !ok {
        return;
      }
      LoadWellKeyed(apps);
      ok := ValidateParents(load.parents, load.declared);
      if !ok {
        return;
      }
      var names := IndexNames(load.codes);
      if names.None? {
        forall l: Load, o, ix ensures !Accepts(apps, regs, l, o, ix) {
          OwnNamesUnique(l.codes, regs, o);
        }
        return false;
      }
      avpcode, avpname := load.codes, names.value;
      ok := IndexRegistrations();
      if !ok {
        forall l, o, ix ensures !Accepts(apps, regs, l, o, ix) {
          if Accepts(apps, regs, l, o, ix) { OwnDetermined(l.codes, regs, o, names.value); }
        }
        return;
      }
      var mine := Own(avpcode, avpname);
      own := mine;
      assert OwnOf(load.codes, regs, own);
      RegisterConsistent(Own(load.codes, names.value), regs);
      avpcode, avpname := DictionaryMerge.MergeInheritedAVPs(mine, load.parents, load.declared);
      assert Published(avpcode, avpname, own, load.parents, load.declared);
      ok := Validate(mine);
      if !ok {
        forall l, o, ix ensures !Accepts(apps, regs, l, o, ix) {
          if Accepts(apps, regs, l, o, ix) {
            OwnDetermined(l.codes, regs, o, names.value);
            MergeDetermined(avpcode, avpname, ix.codes, ix.names, own, load.parents, load.declared);
          }
        }
      }
    }

    /** The two checks on the merged indexes. */
    method Validate(mine: Own) returns (ok: bool)
      requires Published(avpcode, avpname, mine, load.parents, load.declared)
      requires Declared(load.parents, load.declared)
      ensures ok <==> (forall app :: app in load.parents ==> ParentsAgree(Lookups(), load.parents[app], app, mine.names))
                      && AllRulesResolve(Lookups(), load.declared)
    {
      var ix := Lookups();
      forall app, p | app in load.parents && p in load.parents[app] && p != 0 ensures ListsNames(ix, p) {
        DeclaredListsNames(ix, mine, load.parents, load.declared, p);
      }
      ok := ValidateInheritedNames(ix, load.parents, mine.names);
      if ok {
        ok := ValidateRules(ix, load.declared);
      }
    }
  }

  lemma {:induction false} NoCommands(commands: map<CommandIdx, Command>, id: Word, more: seq<Command>, i: nat)
    requires i <= |more| && AddCommands(commands, id, more[..i]).None?
    ensures AddCommands(commands, id, more).None?
    decreases |more| - i
  {
    if i < |more| {
      assert more[..i + 1][..i] == more[..i];
      NoCommands(commands, id, more, i + 1);
    } else {
      assert more[..i] == more;
    }
  }

  lemma {:induction false} NoneStays(apps: seq<App>, i: nat)
    requires i <= |apps| && LoadApps(apps[..i]).None?
    ensures LoadApps(apps).None?
    decreases |apps| - i
  {
    if i < |apps| {
      assert apps[..i + 1][..i] == apps[..i];
      NoneStays(apps, i + 1);
    } else {
      assert apps[..i] == apps;
    }
  }

  lemma {:induction false} NoneRegistered(own: Own, regs: seq<Registration>, i: nat)
    requires i <= |regs| && Register(own, regs[..i]).None?
    ensures Register(own, regs).None?
    decreases |regs| - i
  {
    if i < |regs| {
      assert regs[..i + 1][..i] == regs[..i];
      NoneRegistered(own, regs, i + 1);
    } else {
      assert regs[..i] == regs;
    }
  }
}
