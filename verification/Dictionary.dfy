/** Dictionary definitions, the indexes of a Snapshot and the searches they
    stand for (diam/dict/snapshot.go, diam/dict/util.go). */
module Dictionary {
  import opened Octets
  import opened Datatypes
  import opened Inheritance
  import opened Ancestry

  datatype Flags = Flags(m: bool, p: bool, v: bool)

  /** A flag rule as parseFlags reads it. */
  datatype FlagText = Malformed | Parsed(flags: Flags)

  datatype Rule = Rule(avp: string, required: bool, min: int, max: int, maxSet: bool, fixed: bool, mustNot: FlagText)

  /** `other` stands for the attributes that only tell definitions apart. */
  datatype Def = Def(name: string, code: Word, vendor: Word, must: Flags, kind: TypeId, rules: seq<Rule>, other: nat)

  datatype Command = Command(code: Word, request: seq<Rule>, answer: seq<Rule>)

  datatype App = App(id: Word, inherits: seq<Word>, commands: seq<Command>, avps: seq<Def>)

  datatype Registration = Registration(app: Word, def: Def)

  datatype CodeIdx = CodeIdx(app: Word, code: Word, vendor: Word)
  datatype NameIdx = NameIdx(app: Word, name: string)
  datatype CommandIdx = CommandIdx(app: Word, code: Word)

  type Codes = map<CodeIdx, Def>
  type Names = map<NameIdx, Def>

  const WILDCARD := "AVP"

  // ---- Lookups -----------------------------------------------------------------

  function Probe(codes: Codes, k: CodeIdx): Option<Def> {
    if k in codes then Some(codes[k]) else None
  }

  function ProbeName(names: Names, k: NameIdx): Option<Def> {
    if k in names then Some(names[k]) else None
  }

  /** lookupAVP: the application's entry, else base's. */
  function LookupAVP(codes: Codes, app: Word, code: Word, vendor: Word): Option<Def> {
    if CodeIdx(app, code, vendor) in codes then Some(codes[CodeIdx(app, code, vendor)])
    else Probe(codes, CodeIdx(0, code, vendor))
  }

  function NamedThere(codes: Codes, names: Names, app: Word, scope: Word, name: string): Option<Def> {
    if NameIdx(scope, name) !in names then None
    else
      var a := names[NameIdx(scope, name)];
      match LookupAVP(codes, app, a.code, a.vendor)
      case Some(resolved) => if resolved.name == name then Some(resolved) else None
      case None => None
  }

  /** FindAVPByName: the name in the application's scope, then in base's,
      provided the code found there still resolves to that name. */
  function FindAVPByName(codes: Codes, names: Names, app: Word, name: string): Option<Def> {
    var near := NamedThere(codes, names, app, app, name);
    if near.Some? then near else NamedThere(codes, names, app, 0, name)
  }

  function FindCommand(commands: map<CommandIdx, Command>, app: Word, code: Word): Option<Command> {
    if CommandIdx(app, code) in commands then Some(commands[CommandIdx(app, code)])
    else if CommandIdx(0, code) in commands then Some(commands[CommandIdx(0, code)])
    else None
  }

  // ---- What the indexes stand for ------------------------------------------------

  /** The definitions applications make themselves, by code and by name. */
  datatype Own = Own(codes: Codes, names: Names)

  /** Within an application names and codes identify the same definitions. */
  ghost predicate Consistent(own: Own) {
    && (forall k :: k in own.codes ==>
          var d := own.codes[k];
          d.code == k.code && d.vendor == k.vendor && ProbeName(own.names, NameIdx(k.app, d.name)) == Some(d))
    && (forall n :: n in own.names ==>
          var d := own.names[n];
          d.name == n.name && Probe(own.codes, CodeIdx(n.app, d.code, d.vendor)) == Some(d))
  }

  /** The applications along `chain`, in order: who defines this code first? */
  function Search(codes: Codes, chain: seq<Word>, code: Word, vendor: Word): Option<Def> {
    if chain == [] then None
    else if CodeIdx(chain[0], code, vendor) in codes then Some(codes[CodeIdx(chain[0], code, vendor)])
    else Search(codes, chain[1..], code, vendor)
  }

  /** A definition keeps its name in a scope unless a nearer one renames its code. */
  predicate KeepsName(codes: Codes, scope: seq<Word>, d: Def) {
    match Search(codes, scope, d.code, d.vendor)
    case Some(r) => r.name == d.name
    case None => false
  }

  /** Who first defines this name, among the definitions that keep it in `scope`? */
  function SearchName(own: Own, chain: seq<Word>, scope: seq<Word>, name: string): Option<Def> {
    if chain == [] then None
    else
      var k := NameIdx(chain[0], name);
      if k in own.names && KeepsName(own.codes, scope, own.names[k]) then Some(own.names[k])
      else SearchName(own, chain[1..], scope, name)
  }

  /** The application, its breadth-first ancestors, then base. */
  ghost function Chain(g: Graph, app: Word): seq<Word> {
    [app] + Ancestors(g, app)
  }

  function Owners(own: Own, declared: set<Word>): set<Word> {
    declared + (set k | k in own.codes :: k.app) + (set n | n in own.names :: n.app)
  }

  ghost predicate CodesFor(codes: Codes, own: Own, app: Word, chain: seq<Word>) {
    forall c: Word, v: Word :: Probe(codes, CodeIdx(app, c, v)) == Search(own.codes, chain, c, v)
  }

  ghost predicate NamesFor(names: Names, own: Own, app: Word, chain: seq<Word>, scope: seq<Word>) {
    forall n: string :: ProbeName(names, NameIdx(app, n)) == SearchName(own, chain, scope, n)
  }

  /** What mergeInheritedAVPs leaves behind: the view of every application
      that is declared or defines something, and nothing for the others. */
  ghost predicate Merged(codes: Codes, names: Names, own: Own, g: Graph, declared: set<Word>) {
    forall app: Word ::
      var chain := if app in Owners(own, declared) then Chain(g, app) else [];
      CodesFor(codes, own, app, chain) && NamesFor(names, own, app, chain, chain)
  }

  // ---- The searches ------------------------------------------------------------

  lemma {:induction false} SearchAppend(codes: Codes, xs: seq<Word>, ys: seq<Word>, c: Word, v: Word)
    ensures Search(codes, xs + ys, c, v)
            == if Search(codes, xs, c, v).Some? then Search(codes, xs, c, v) else Search(codes, ys, c, v)
  {
    if xs == [] {
      assert xs + ys == ys;
    } else {
      SearchAppend(codes, xs[1..], ys, c, v);
      assert (xs + ys)[1..] == xs[1..] + ys;
    }
  }

  lemma {:induction false} SearchNameAppend(own: Own, xs: seq<Word>, ys: seq<Word>, scope: seq<Word>, n: string)
    ensures SearchName(own, xs + ys, scope, n)
            == if SearchName(own, xs, scope, n).Some? then SearchName(own, xs, scope, n)
               else SearchName(own, ys, scope, n)
  {
    if xs == [] {
      assert xs + ys == ys;
    } else {
      SearchNameAppend(own, xs[1..], ys, scope, n);
      assert (xs + ys)[1..] == xs[1..] + ys;
    }
  }

  lemma {:induction false} SearchFound(own: Own, chain: seq<Word>, c: Word, v: Word)
    requires Consistent(own)
    ensures var r := Search(own.codes, chain, c, v); r.Some? ==> r.value.code == c && r.value.vendor == v
  {
    if chain != [] { SearchFound(own, chain[1..], c, v); }
  }

  lemma {:induction false} SearchNameFound(own: Own, chain: seq<Word>, scope: seq<Word>, n: string)
    requires Consistent(own)
    ensures var r := SearchName(own, chain, scope, n);
            r.Some? ==> r.value.name == n && KeepsName(own.codes, scope, r.value)
  {
    if chain != [] { SearchNameFound(own, chain[1..], scope, n); }
  }

  /** The first definition of a name that is kept is the one its code resolves to. */
  lemma {:induction false} NameIsCode(own: Own, before: seq<Word>, chain: seq<Word>, n: string)
    requires Consistent(own) && SearchName(own, before, before + chain, n).None?
    ensures var r := SearchName(own, chain, before + chain, n);
            r.Some? ==> Search(own.codes, before + chain, r.value.code, r.value.vendor) == r
    decreases chain
  {
    var scope := before + chain;
    if chain != [] {
      var k := NameIdx(chain[0], n);
      if k in own.names && KeepsName(own.codes, scope, own.names[k]) {
        var d := own.names[k];
        SearchAppend(own.codes, before, chain, d.code, d.vendor);
        if Search(own.codes, before, d.code, d.vendor).Some? {
          RenamedBefore(own, before, scope, d.code, d.vendor);
        }
      } else {
        assert scope == (before + [chain[0]]) + chain[1..];
        SearchNameAppend(own, before, [chain[0]], scope, n);
        NameIsCode(own, before + [chain[0]], chain[1..], n);
      }
    }
  }

  /** A code found early whose name is kept has its name found early too. */
  lemma {:induction false} RenamedBefore(own: Own, xs: seq<Word>, scope: seq<Word>, c: Word, v: Word)
    requires Consistent(own) && Search(own.codes, xs, c, v).Some?
    requires Search(own.codes, scope, c, v) == Search(own.codes, xs, c, v)
    ensures SearchName(own, xs, scope, Search(own.codes, xs, c, v).value.name).Some?
  {
    var d := Search(own.codes, xs, c, v).value;
    SearchFound(own, xs, c, v);
    if CodeIdx(xs[0], c, v) !in own.codes { RenamedBefore(own, xs[1..], scope, c, v); }
  }
}
