/** Rule validation (diam/dict/snapshot.go, validateRules): after it succeeds
    every rule a lookup can reach resolves in the scope it is used in. */
module DictionaryRules {
  import opened Octets
  import opened Inheritance
  import opened Ancestry
  import opened Dictionary
  import opened DictionaryLookup

  /** The lookups a Snapshot offers. */
  datatype Index = Index(codes: Codes, names: Names, commands: map<CommandIdx, Command>)

  const NO_FLAGS := Flags(false, false, false)

  function Union(a: Flags, b: Flags): Flags {
    Flags(a.m || b.m, a.p || b.p, a.v || b.v)
  }

  predicate Overlap(a: Flags, b: Flags) {
    (a.m && b.m) || (a.p && b.p) || (a.v && b.v)
  }

  /** parseMemberProhibitions accepts only M and P. */
  predicate IsProhibition(t: FlagText) {
    t.Parsed? && !t.flags.v
  }

  function WildcardFlags(rules: seq<Rule>): Flags {
    if rules == [] then NO_FLAGS
    else
      var last, before := rules[|rules| - 1], WildcardFlags(rules[..|rules| - 1]);
      if last.avp == WILDCARD && last.mustNot.Parsed? then Union(before, last.mustNot.flags) else before
  }

  /** A named member resolves, and nothing prohibits a flag it requires. */
  predicate MemberResolves(ix: Index, app: Word, wildcard: Flags, rule: Rule) {
    rule.avp == WILDCARD ||
    match FindAVPByName(ix.codes, ix.names, app, rule.avp)
    case Some(member) => rule.mustNot.Parsed? && !Overlap(Union(wildcard, rule.mustNot.flags), member.must)
    case None => false
  }

  predicate RulesResolve(ix: Index, app: Word, rules: seq<Rule>) {
    && (forall i :: 0 <= i < |rules| ==> IsProhibition(rules[i].mustNot))
    && (forall i :: 0 <= i < |rules| ==> MemberResolves(ix, app, WildcardFlags(rules), rules[i]))
  }

  /** resolveRules */
  method ResolveRules(ix: Index, app: Word, rules: seq<Rule>) returns (ok: bool)
    ensures ok <==> RulesResolve(ix, app, rules)
  {
    var wildcard := NO_FLAGS;
    for i := 0 to |rules|
      invariant wildcard == WildcardFlags(rules[..i])
      invariant forall k :: 0 <= k < i ==> IsProhibition(rules[k].mustNot)
    {
      if !IsProhibition(rules[i].mustNot) {
        return false;
      }
      assert rules[..i + 1][..i] == rules[..i];
      if rules[i].avp == WILDCARD {
        wildcard := Union(wildcard, rules[i].mustNot.flags);
      }
    }
    assert rules[..|rules|] == rules;
    for i := 0 to |rules|
      invariant forall k :: 0 <= k < i ==> MemberResolves(ix, app, wildcard, rules[k])
    {
      if rules[i].avp != WILDCARD {
        var member := FindAVPByName(ix.codes, ix.names, app, rules[i].avp);
        if member.None? || Overlap(Union(wildcard, rules[i].mustNot.flags), member.value.must) {
          return false;
        }
      }
    }
    ok := true;
  }

  predicate CommandResolves(ix: Index, app: Word, cmd: Command) {
    RulesResolve(ix, app, cmd.request) && RulesResolve(ix, app, cmd.answer)
  }

  /** Base commands are checked in every application that does not replace them. */
  predicate BaseCommandResolves(ix: Index, apps: set<Word>, cmd: Command, code: Word) {
    forall app :: app in apps && app != 0 && CommandIdx(app, code) !in ix.commands ==> CommandResolves(ix, app, cmd)
  }

  ghost predicate AllRulesResolve(ix: Index, declared: set<Word>) {
    && (forall k :: k in ix.codes ==> RulesResolve(ix, k.app, ix.codes[k].rules))
    && (forall k :: k in ix.commands ==> CommandResolves(ix, k.app, ix.commands[k]))
    && (forall k :: k in ix.commands && k.app == 0 ==> BaseCommandResolves(ix, Scopes(ix, declared), ix.commands[k], k.code))
  }

  function Scopes(ix: Index, declared: set<Word>): set<Word> {
    declared + set k | k in ix.codes :: k.app
  }

  method ResolveCommandRules(ix: Index, app: Word, cmd: Command) returns (ok: bool)
    ensures ok <==> CommandResolves(ix, app, cmd)
  {
    ok := ResolveRules(ix, app, cmd.request);
    if ok {
      ok := ResolveRules(ix, app, cmd.answer);
    }
  }

  /** validateRules, with its maps visited in any order. */
  method ValidateRules(ix: Index, declared: set<Word>) returns (ok: bool)
    ensures ok <==> AllRulesResolve(ix, declared)
  {
    var todo := ix.codes.Keys;
    while todo != {}
      invariant todo <= ix.codes.Keys
      invariant forall k :: k in ix.codes && k !in todo ==> RulesResolve(ix, k.app, ix.codes[k].rules)
    {
      var k :| k in todo;
      ok := ResolveRules(ix, k.app, ix.codes[k].rules);
      if !ok {
        return;
      }
      todo := todo - {k};
    }
    var commands := ix.commands.Keys;
    while commands != {}
      invariant commands <= ix.commands.Keys
      invariant forall k :: k in ix.commands && k !in commands ==> CommandResolves(ix, k.app, ix.commands[k])
      invariant forall k :: k in ix.commands && k !in commands && k.app == 0 ==>
                  BaseCommandResolves(ix, Scopes(ix, declared), ix.commands[k], k.code)
    {
      var k :| k in commands;
      ok := ResolveCommandRules(ix, k.app, ix.commands[k]);
      if !ok {
        return;
      }
      if k.app == 0 {
        ok := ValidateBaseCommand(ix, Scopes(ix, declared), ix.commands[k], k.code);
        if !ok {
          return;
        }
      }
      commands := commands - {k};
    }
    ok := true;
  }

  method ValidateBaseCommand(ix: Index, apps: set<Word>, cmd: Command, code: Word) returns (ok: bool)
    ensures ok <==> BaseCommandResolves(ix, apps, cmd, code)
  {
    var todo := apps;
    while todo != {}
      invariant todo <= apps
      invariant BaseCommandResolves(ix, apps - todo, cmd, code)
    {
      var app :| app in todo;
      if app != 0 && CommandIdx(app, code) !in ix.commands {
        ok := ResolveCommandRules(ix, app, cmd);
        if !ok {
          return;
        }
      }
      todo := todo - {app};
    }
    assert apps - todo == apps;
    ok := true;
  }

  // ---- Closure -------------------------------------------------------------------

  /** An application nobody declares or extends sees exactly base's names. */
  lemma UndeclaredSeesBase(ix: Index, own: Own, g: Graph, declared: set<Word>, app: Word, n: string)
    requires Published(ix.codes, ix.names, own, g, declared) && app !in Owners(own, declared)
    ensures FindAVPByName(ix.codes, ix.names, app, n) == FindAVPByName(ix.codes, ix.names, 0, n)
  {
    FindByNameIsSearch(ix.codes, ix.names, own, g, declared, app, n);
    FindByNameIsSearch(ix.codes, ix.names, own, g, declared, 0, n);
    if app != 0 {
      var near := EndsInBase(g, app);
      NotOwned(own, declared, app, 0, 0, n);
      assert Chain(g, app) == [app, 0] && [app, 0][1..] == [0] && Chain(g, 0) == [0];
      if NameIdx(0, n) in own.names {
        var d := own.names[NameIdx(0, n)];
        NotOwned(own, declared, app, d.code, d.vendor, n);
        assert Search(own.codes, [app, 0], d.code, d.vendor) == Search(own.codes, [0], d.code, d.vendor);
      }
      assert SearchName(own, [app, 0], [app, 0], n) == SearchName(own, [0], [app, 0], n);
      assert SearchName(own, [0][1..], [app, 0], n) == SearchName(own, [0][1..], [0], n) == None;
    }
  }

  lemma UndeclaredRules(ix: Index, own: Own, g: Graph, declared: set<Word>, app: Word, rules: seq<Rule>)
    requires Published(ix.codes, ix.names, own, g, declared) && app !in Owners(own, declared)
    ensures RulesResolve(ix, app, rules) == RulesResolve(ix, 0, rules)
  {
    forall i | 0 <= i < |rules|
      ensures MemberResolves(ix, app, WildcardFlags(rules), rules[i]) == MemberResolves(ix, 0, WildcardFlags(rules), rules[i])
    {
      UndeclaredSeesBase(ix, own, g, declared, app, rules[i].avp);
    }
  }

  lemma OwnersAreScopes(ix: Index, own: Own, g: Graph, declared: set<Word>, app: Word)
    requires Published(ix.codes, ix.names, own, g, declared) && app in Owners(own, declared)
    ensures app in Scopes(ix, declared)
  {
    if app !in declared {
      var k :| k in own.codes && k.app == app;
      assert CodesFor(ix.codes, own, app, if app in Owners(own, declared) then Chain(g, app) else []);
      assert Probe(ix.codes, CodeIdx(app, k.code, k.vendor)) == Search(own.codes, Chain(g, app), k.code, k.vendor);
      assert k == CodeIdx(app, k.code, k.vendor) && k in ix.codes;
    }
  }

  /** An application with an index never needs the base probe. */
  lemma IndexedHasEntry(ix: Index, own: Own, g: Graph, declared: set<Word>, app: Word, c: Word, v: Word)
    requires Published(ix.codes, ix.names, own, g, declared) && app in Owners(own, declared)
    ensures LookupAVP(ix.codes, app, c, v) == Probe(ix.codes, CodeIdx(app, c, v))
  {
    LookupIsSearch(ix.codes, ix.names, own, g, declared, app, c, v);
    assert CodesFor(ix.codes, own, app, if app in Owners(own, declared) then Chain(g, app) else []);
  }

  /** Rule closure for AVPs: the rules of any definition a lookup returns
      resolve in the application that asked, declared or not. */
  lemma GroupedRulesClosed(ix: Index, own: Own, g: Graph, declared: set<Word>, app: Word, c: Word, v: Word)
    requires Published(ix.codes, ix.names, own, g, declared) && AllRulesResolve(ix, declared)
    requires LookupAVP(ix.codes, app, c, v).Some?
    ensures RulesResolve(ix, app, LookupAVP(ix.codes, app, c, v).value.rules)
  {
    var d := LookupAVP(ix.codes, app, c, v).value;
    if app in Owners(own, declared) {
      IndexedHasEntry(ix, own, g, declared, app, c, v);
      assert RulesResolve(ix, CodeIdx(app, c, v).app, d.rules);
    } else {
      UndeclaredRules(ix, own, g, declared, app, d.rules);
      assert CodesFor(ix.codes, own, app, if app in Owners(own, declared) then Chain(g, app) else []);
      assert Probe(ix.codes, CodeIdx(app, c, v)) == Search(own.codes, [], c, v) == None;
      assert RulesResolve(ix, CodeIdx(0, c, v).app, d.rules);
    }
  }

  /** Rule closure for commands. */
  lemma CommandRulesClosed(ix: Index, own: Own, g: Graph, declared: set<Word>, app: Word, code: Word)
    requires Published(ix.codes, ix.names, own, g, declared) && AllRulesResolve(ix, declared)
    requires FindCommand(ix.commands, app, code).Some?
    ensures CommandResolves(ix, app, FindCommand(ix.commands, app, code).value)
  {
    var cmd := FindCommand(ix.commands, app, code).value;
    if CommandIdx(app, code) !in ix.commands {
      assert CommandIdx(0, code) in ix.commands && app != 0;
      if app in Owners(own, declared) {
        OwnersAreScopes(ix, own, g, declared, app);
        assert BaseCommandResolves(ix, Scopes(ix, declared), ix.commands[CommandIdx(0, code)], CommandIdx(0, code).code);
      } else {
        assert CommandResolves(ix, CommandIdx(0, code).app, cmd);
        UndeclaredRules(ix, own, g, declared, app, cmd.request);
        UndeclaredRules(ix, own, g, declared, app, cmd.answer);
      }
    }
  }

  // ---- Agreement of direct parents --------------------------------------------------

  predicate SameIdentity(a: Def, b: Def) {
    a.code == b.code && a.vendor == b.vendor
  }

  predicate Agrees(ix: Index, p: Word, q: Word, n: string) {
    var a, b := FindAVPByName(ix.codes, ix.names, p, n), FindAVPByName(ix.codes, ix.names, q, n);
    a.Some? && b.Some? ==> SameIdentity(a.value, b.value)
  }

  /** For a name the child does not define, all its direct parents other than
      base that resolve it agree on the code and vendor. */
  ghost predicate ParentsAgree(ix: Index, parents: seq<Word>, app: Word, own: Names) {
    forall p: Word, q: Word, n: string ::
      p in parents && q in parents && p != 0 && q != 0 && NameIdx(app, n) !in own ==> Agrees(ix, p, q, n)
  }

  /** A parent's index lists every name it resolves. */
  ghost predicate ListsNames(ix: Index, p: Word) {
    forall n: string :: FindAVPByName(ix.codes, ix.names, p, n).Some? ==> NameIdx(p, n) in ix.names
  }

  /** What a parent resolves the name to was seen, with that identity. */
  predicate SawName(ix: Index, seen: map<string, Def>, p: Word, n: string) {
    match FindAVPByName(ix.codes, ix.names, p, n)
    case Some(d) => n in seen && SameIdentity(seen[n], d)
    case None => true
  }

  ghost predicate Seen(ix: Index, seen: map<string, Def>, p: Word, app: Word, own: Names) {
    forall n: string :: NameIdx(app, n) !in own ==> SawName(ix, seen, p, n)
  }

  /** Every seen resolution comes from one of the parents. */
  ghost predicate SeenFrom(ix: Index, seen: map<string, Def>, parents: seq<Word>, app: Word, own: Names) {
    forall n: string :: n in seen ==> NameIdx(app, n) !in own && SomeParent(ix, parents, n, seen[n])
  }

  ghost predicate SomeParent(ix: Index, parents: seq<Word>, n: string, d: Def) {
    exists p: Word :: p in parents && p != 0 && FindAVPByName(ix.codes, ix.names, p, n) == Some(d)
  }

  /** Resolutions recorded so far are kept up to identity. */
  ghost predicate Extends(before: map<string, Def>, after: map<string, Def>) {
    forall n: string :: n in before ==> n in after && SameIdentity(before[n], after[n])
  }

  lemma Recorded(ix: Index, seen: map<string, Def>, after: map<string, Def>, parents: seq<Word>, app: Word, own: Names,
                 p: Word, name: string, d: Def)
    requires Extends(seen, after) && SeenFrom(ix, after, parents, app, own) && p in parents && p != 0
    requires NameIdx(app, name) !in own && FindAVPByName(ix.codes, ix.names, p, name) == Some(d)
    requires name in after ==> SameIdentity(after[name], d)
    ensures var more := after[name := d];
            && Extends(seen, more) && SeenFrom(ix, more, parents, app, own) && SawName(ix, more, p, name)
            && forall n: string :: SawName(ix, after, p, n) ==> SawName(ix, more, p, n)
  {
    assert SomeParent(ix, parents, name, d);
  }

  /** The names of one parent, in any order, against those seen before. */
  method CompareParent(ix: Index, app: Word, own: Names, seen: map<string, Def>, p: Word, ghost parents: seq<Word>)
    returns (ok: bool, after: map<string, Def>)
    requires p in parents && p != 0 && ListsNames(ix, p) && SeenFrom(ix, seen, parents, app, own)
    ensures ok ==> Extends(seen, after) && Seen(ix, after, p, app, own) && SeenFrom(ix, after, parents, app, own)
    ensures !ok ==> !ParentsAgree(ix, parents, app, own)
  {
    after := seen;
    var all := set k | k in ix.names && k.app == p :: k.name;
    var todo := all;
    while todo != {}
      invariant todo <= all
      invariant Extends(seen, after) && SeenFrom(ix, after, parents, app, own)
      invariant forall n :: n in all && n !in todo && NameIdx(app, n) !in own ==> SawName(ix, after, p, n)
    {
      var name :| name in todo;
      todo := todo - {name};
      var found := FindAVPByName(ix.codes, ix.names, p, name);
      if NameIdx(app, name) in own || found.None? {
        continue;
      }
      if name in after && !SameIdentity(after[name], found.value) {
        assert SomeParent(ix, parents, name, after[name]);
        ghost var q: Word :| q in parents && q != 0 && FindAVPByName(ix.codes, ix.names, q, name) == Some(after[name]);
        assert !Agrees(ix, q, p, name);
        return false, after;
      }
      Recorded(ix, seen, after, parents, app, own, p, name, found.value);
      after := after[name := found.value];
    }
    forall n: string | NameIdx(app, n) !in own ensures SawName(ix, after, p, n) {
      if FindAVPByName(ix.codes, ix.names, p, n).Some? {
        assert NameIdx(p, n) in ix.names && n in all;
      }
    }
    ok := true;
  }

  /** The direct parents of one application, in declaration order. */
  method CompareParents(ix: Index, app: Word, own: Names, parents: seq<Word>) returns (ok: bool)
    requires forall p :: p in parents && p != 0 ==> ListsNames(ix, p)
    ensures ok <==> ParentsAgree(ix, parents, app, own)
  {
    var seen: map<string, Def> := map[];
    var i := 0;
    while i < |parents|
      invariant i <= |parents|
      invariant SeenFrom(ix, seen, parents, app, own)
      invariant forall k :: 0 <= k < i && parents[k] != 0 ==> Seen(ix, seen, parents[k], app, own)
    {
      if parents[i] != 0 {
        ghost var before := seen;
        ok, seen := CompareParent(ix, app, own, seen, parents[i], parents);
        if !ok {
          return;
        }
        forall k | 0 <= k < i && parents[k] != 0 ensures Seen(ix, seen, parents[k], app, own) {
          StillSeen(ix, before, seen, parents[k], app, own);
        }
      }
      i := i + 1;
    }
    AllSeenAgree(ix, seen, parents, app, own);
    ok := true;
  }

  lemma StillSeen(ix: Index, before: map<string, Def>, after: map<string, Def>, p: Word, app: Word, own: Names)
    requires Seen(ix, before, p, app, own) && Extends(before, after)
    ensures Seen(ix, after, p, app, own)
  {
    forall n: string | NameIdx(app, n) !in own ensures SawName(ix, after, p, n) {
      assert SawName(ix, before, p, n);
    }
  }

  lemma AllSeenAgree(ix: Index, seen: map<string, Def>, parents: seq<Word>, app: Word, own: Names)
    requires forall k :: 0 <= k < |parents| && parents[k] != 0 ==> Seen(ix, seen, parents[k], app, own)
    ensures ParentsAgree(ix, parents, app, own)
  {
    forall p: Word, q: Word, n: string | p in parents && q in parents && p != 0 && q != 0 && NameIdx(app, n) !in own
      ensures Agrees(ix, p, q, n)
    {
      assert Seen(ix, seen, p, app, own) && Seen(ix, seen, q, app, own);
      assert SawName(ix, seen, p, n) && SawName(ix, seen, q, n);
    }
  }

  /** validateInheritedNames, with the applications in any order. */
  method ValidateInheritedNames(ix: Index, g: Graph, own: Names) returns (ok: bool)
    requires forall app, p :: app in g && p in g[app] && p != 0 ==> ListsNames(ix, p)
    ensures ok <==> forall app :: app in g ==> ParentsAgree(ix, g[app], app, own)
  {
    var todo := g.Keys;
    while todo != {}
      invariant todo <= g.Keys
      invariant forall app :: app in g && app !in todo ==> ParentsAgree(ix, g[app], app, own)
    {
      var app :| app in todo;
      ok := CompareParents(ix, app, own, g[app]);
      if !ok {
        return;
      }
      todo := todo - {app};
    }
    ok := true;
  }

  /** Declared applications list every name they resolve, base's included. */
  lemma DeclaredListsNames(ix: Index, own: Own, g: Graph, declared: set<Word>, p: Word)
    requires Published(ix.codes, ix.names, own, g, declared) && p in declared
    ensures ListsNames(ix, p)
  {
    forall n: string | FindAVPByName(ix.codes, ix.names, p, n).Some? ensures NameIdx(p, n) in ix.names {
      FindByNameIsSearch(ix.codes, ix.names, own, g, declared, p, n);
      NearName(ix.codes, ix.names, own, g, declared, p, n);
    }
  }
}
