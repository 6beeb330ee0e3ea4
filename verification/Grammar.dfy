/** The command and group grammar of RFC 6733 sections 3.2 and 4.4, stated
    without reference to the order in which a validator looks at the AVPs. */
module Grammar {
  import opened Octets
  import opened Datatypes
  import opened Dictionary

  /** An AVP as the validator sees it; Nil stands for a nil pointer in a list. */
  datatype Node = Nil | Node(code: Word, vendor: Word, flags: Byte, body: Body)

  /** Data that is no GroupedAVP, a nil *GroupedAVP, or a group. */
  datatype Body = Leaf | NilGroup | Group(members: seq<Node>)

  datatype Key = Key(code: Word, vendor: Word)

  /** The Snapshot as one application sees it. */
  datatype View = View(codes: Codes, names: Names, app: Word)

  datatype Entry = Entry(rule: Rule, def: Def)

  /** The named rules the dictionary can resolve, in order, and the wildcard. */
  datatype Scheme = Scheme(ordered: seq<Entry>, wildcard: Option<Rule>)

  const FAILED_AVP: Key := Key(279, 0)
  const PROXY_INFO: Key := Key(284, 0)
  const VENDOR_SPECIFIC_APPLICATION_ID: Key := Key(260, 0)
  const AUTH_APPLICATION_ID: Key := Key(258, 0)
  const ACCT_APPLICATION_ID: Key := Key(259, 0)

  function KeyOf(e: Entry): Key {
    Key(e.def.code, e.def.vendor)
  }

  function NodeKey(a: Node): Key
    requires a.Node?
  {
    Key(a.code, a.vendor)
  }

  function Members(a: Node): seq<Node>
    requires a.Node?
  {
    if a.body.Group? then a.body.members else []
  }

  function Definition(v: View, a: Node): Option<Def>
    requires a.Node?
  {
    LookupAVP(v.codes, v.app, a.code, a.vendor)
  }

  function Named(v: View, rules: seq<Rule>): seq<Entry> {
    if rules == [] then []
    else
      var r := rules[|rules| - 1];
      var before := Named(v, rules[..|rules| - 1]);
      if r.avp == WILDCARD then before
      else
        match FindAVPByName(v.codes, v.names, v.app, r.avp)
        case Some(d) => before + [Entry(r, d)]
        case None => before
  }

  function Wildcard(rules: seq<Rule>): Option<Rule> {
    if rules == [] then None
    else if rules[|rules| - 1].avp == WILDCARD then Some(rules[|rules| - 1])
    else Wildcard(rules[..|rules| - 1])
  }

  function SchemeOf(v: View, rules: seq<Rule>): Scheme {
    Scheme(Named(v, rules), Wildcard(rules))
  }

  /** Where the rules name this AVP: the last such rule, or -1. */
  function Place(ordered: seq<Entry>, k: Key): (i: int)
    ensures -1 <= i < |ordered|
    ensures 0 <= i ==> KeyOf(ordered[i]) == k
  {
    if ordered == [] then -1
    else if KeyOf(ordered[|ordered| - 1]) == k then |ordered| - 1
    else Place(ordered[..|ordered| - 1], k)
  }

  ghost predicate Distinct(ordered: seq<Entry>) {
    forall i, j :: 0 <= i < j < |ordered| ==> KeyOf(ordered[i]) != KeyOf(ordered[j])
  }

  /** No rule list of the view names one AVP twice. */
  ghost predicate RulesDistinct(v: View) {
    forall k :: k in v.codes ==> Distinct(Named(v, v.codes[k].rules))
  }

  function Minimum(r: Rule): int {
    if r.min > 0 then r.min else if r.required then 1 else 0
  }

  predicate HasMaximum(r: Rule) {
    r.maxSet || r.max > 0
  }

  /** Whether `n` occurrences stay within the rule's stated maximum. */
  predicate Bounded(r: Rule, n: nat) {
    n > 0 && HasMaximum(r) ==> n <= r.max
  }

  /** A fixed AVP with no stated maximum may occur once. */
  predicate Allows(r: Rule, n: nat) {
    Bounded(r, n) && (r.fixed && !HasMaximum(r) ==> n <= 1)
  }

  // ---- Counting ----------------------------------------------------------------

  predicate Is(a: Node, k: Key) {
    a.Node? && NodeKey(a) == k
  }

  predicate Unlisted(s: Scheme, a: Node) {
    a.Node? && Place(s.ordered, NodeKey(a)) < 0
  }

  /** Not named by a rule, but known to the dictionary. */
  predicate Extra(v: View, s: Scheme, a: Node) {
    Unlisted(s, a) && Definition(v, a).Some?
  }

  function Count(items: seq<Node>, k: Key): nat {
    if items == [] then 0
    else Count(items[..|items| - 1], k) + if Is(items[|items| - 1], k) then 1 else 0
  }

  function CountUnlisted(s: Scheme, items: seq<Node>): nat {
    if items == [] then 0
    else CountUnlisted(s, items[..|items| - 1]) + if Unlisted(s, items[|items| - 1]) then 1 else 0
  }

  function CountExtra(v: View, s: Scheme, items: seq<Node>): nat {
    if items == [] then 0
    else CountExtra(v, s, items[..|items| - 1]) + if Extra(v, s, items[|items| - 1]) then 1 else 0
  }

  // ---- The grammar -------------------------------------------------------------

  predicate Echoed(a: Node, i: nat, echoes: set<nat>) {
    Is(a, PROXY_INFO) && i in echoes
  }

  /** Known or named; an AVP that is neither is left alone by every other rule. */
  predicate Judged(v: View, s: Scheme, a: Node) {
    a.Node? && (Place(s.ordered, NodeKey(a)) >= 0 || Definition(v, a).Some?)
  }

  /** The V bit agrees with the definition, and a known AVP is permitted here. */
  predicate Admissible(v: View, s: Scheme, a: Node, echo: bool) {
    && a.Node?
    && (Definition(v, a).Some? && !echo ==> (a.flags >= 0x80 <==> Definition(v, a).value.vendor != 0))
    && (Extra(v, s, a) ==> s.wildcard.Some?)
  }

  /** The rank of a judged AVP: its rule's position when that rule is fixed. */
  function Rank(s: Scheme, a: Node): (i: int)
    requires a.Node?
    ensures -1 <= i < |s.ordered|
    ensures 0 <= i ==> s.ordered[i].rule.fixed && KeyOf(s.ordered[i]) == NodeKey(a)
  {
    var i := Place(s.ordered, NodeKey(a));
    if i >= 0 && s.ordered[i].rule.fixed then i else -1
  }

  /** Among the judged AVPs the fixed ones come first, in rule order. */
  ghost predicate FixedFirst(v: View, s: Scheme, items: seq<Node>) {
    forall i, j :: 0 <= i < j < |items| && Judged(v, s, items[i]) && Judged(v, s, items[j]) && 0 <= Rank(s, items[j]) ==>
      0 <= Rank(s, items[i]) <= Rank(s, items[j])
  }

  ghost predicate AllAdmissible(v: View, s: Scheme, items: seq<Node>, echoes: set<nat>) {
    forall i :: 0 <= i < |items| ==> Admissible(v, s, items[i], Echoed(items[i], i, echoes))
  }

  ghost predicate WithinMaxima(v: View, s: Scheme, items: seq<Node>) {
    && (forall p :: 0 <= p < |s.ordered| ==> Allows(s.ordered[p].rule, Count(items, KeyOf(s.ordered[p]))))
    && (s.wildcard.Some? ==> Bounded(s.wildcard.value, CountExtra(v, s, items)))
  }

  ghost predicate MeetsMinima(s: Scheme, items: seq<Node>) {
    && (forall p :: 0 <= p < |s.ordered| ==> Minimum(s.ordered[p].rule) <= Count(items, KeyOf(s.ordered[p])))
    && (s.wildcard.Some? ==> Minimum(s.wildcard.value) <= CountUnlisted(s, items))
  }

  /** Failed-AVP holds evidence, whatever it is; a Vendor-Specific-Application-Id
      names exactly one application; another known group follows its own grammar. */
  ghost predicate Sound(v: View, a: Node)
    requires a.Node?
    decreases a, 0
  {
    if NodeKey(a) == FAILED_AVP then
      a.body.Group? && a.body.members != [] && Nil !in a.body.members
    else
      Definition(v, a).Some? && Definition(v, a).value.kind.GroupedType? && Definition(v, a).value.rules != [] && !a.body.Leaf? ==>
        && (a.body.Group? ==> Valid(v, a.body.members, Definition(v, a).value.rules, {}))
        && (a.body.NilGroup? ==> MeetsMinima(SchemeOf(v, Definition(v, a).value.rules), []))
        && (Key(Definition(v, a).value.code, Definition(v, a).value.vendor) == VENDOR_SPECIFIC_APPLICATION_ID ==>
              Count(Members(a), AUTH_APPLICATION_ID) + Count(Members(a), ACCT_APPLICATION_ID) == 1)
  }

  ghost predicate AllSound(v: View, s: Scheme, items: seq<Node>, echoes: set<nat>)
    decreases items, 0
  {
    forall i :: 0 <= i < |items| && Judged(v, s, items[i]) && !Echoed(items[i], i, echoes) ==> Sound(v, items[i])
  }

  /** The AVPs conform to the rules. */
  ghost predicate Valid(v: View, items: seq<Node>, rules: seq<Rule>, echoes: set<nat>)
    decreases items, 1
  {
    var s := SchemeOf(v, rules);
    && AllAdmissible(v, s, items, echoes)
    && AllSound(v, s, items, echoes)
    && WithinMaxima(v, s, items)
    && FixedFirst(v, s, items)
    && MeetsMinima(s, items)
  }

  // ---- What a result code accuses ------------------------------------------------

  const INVALID_AVP_BITS := 3009
  const INVALID_AVP_VALUE := 5004
  const MISSING_AVP := 5005
  const AVP_NOT_ALLOWED := 5008
  const AVP_OCCURS_TOO_MANY_TIMES := 5009

  predicate Misflagged(v: View, a: Node, echo: bool) {
    a.Node? && Definition(v, a).Some? && !echo && (a.flags >= 0x80) != (Definition(v, a).value.vendor != 0)
  }

  /** An AVP that may not stand in this list at all. */
  predicate Forbidden(v: View, s: Scheme, a: Node) {
    a.Nil? || (Extra(v, s, a) && s.wildcard.None?)
  }

  /** The code for a broken maximum: an AVP that may never occur is not allowed. */
  function Excess(r: Rule): nat {
    if HasMaximum(r) && r.max == 0 then AVP_NOT_ALLOWED else AVP_OCCURS_TOO_MANY_TIMES
  }

  /** A broken maximum for which this is the code. */
  ghost predicate Overfull(v: View, s: Scheme, items: seq<Node>, code: nat) {
    || (exists p :: 0 <= p < |s.ordered| && Exceeds(s.ordered[p], items, code))
    || (s.wildcard.Some? && !Bounded(s.wildcard.value, CountExtra(v, s, items)) && code == Excess(s.wildcard.value))
  }

  predicate Exceeds(e: Entry, items: seq<Node>, code: nat) {
    !Allows(e.rule, Count(items, KeyOf(e))) && code == Excess(e.rule)
  }

  /** The fault a result code of section 7.1 reports, in this list itself. */
  ghost predicate Faulted(v: View, s: Scheme, items: seq<Node>, echoes: set<nat>, code: nat) {
    || (code == INVALID_AVP_BITS && exists i :: 0 <= i < |items| && Misflagged(v, items[i], Echoed(items[i], i, echoes)))
    || (code == MISSING_AVP && !MeetsMinima(s, items))
    || Overfull(v, s, items, code)
    || (code == AVP_NOT_ALLOWED && exists i :: 0 <= i < |items| && Forbidden(v, s, items[i]))
    || (code == AVP_NOT_ALLOWED && !FixedFirst(v, s, items))
  }

  /** A Vendor-Specific-Application-Id that names no application, or several. */
  ghost predicate Undecided(v: View, a: Node, code: nat)
    requires a.Node? && Definition(v, a).Some?
  {
    && Key(Definition(v, a).value.code, Definition(v, a).value.vendor) == VENDOR_SPECIFIC_APPLICATION_ID
    && var n := Count(Members(a), AUTH_APPLICATION_ID) + Count(Members(a), ACCT_APPLICATION_ID);
       (code == MISSING_AVP && n == 0) || (code == AVP_OCCURS_TOO_MANY_TIMES && n > 1)
  }

  /** The fault a result code reports inside one AVP. */
  ghost predicate Blamed(v: View, a: Node, code: nat)
    requires a.Node?
    decreases a, 0
  {
    if NodeKey(a) == FAILED_AVP then
      || (code == INVALID_AVP_VALUE && (!a.body.Group? || Nil in a.body.members))
      || (code == MISSING_AVP && a.body.Group? && a.body.members == [])
    else
      && Definition(v, a).Some? && Definition(v, a).value.kind.GroupedType? && Definition(v, a).value.rules != []
      && !a.body.Leaf?
      && ( || (a.body.Group? && Blames(v, a.body.members, Definition(v, a).value.rules, {}, code))
           || (a.body.NilGroup? && code == MISSING_AVP && !MeetsMinima(SchemeOf(v, Definition(v, a).value.rules), []))
           || Undecided(v, a, code))
  }

  /** The fault a result code reports, here or in a judged member at any depth. */
  ghost predicate Blames(v: View, items: seq<Node>, rules: seq<Rule>, echoes: set<nat>, code: nat)
    decreases items, 1
  {
    || Faulted(v, SchemeOf(v, rules), items, echoes, code)
    || exists i :: 0 <= i < |items| && Judged(v, SchemeOf(v, rules), items[i]) && !Echoed(items[i], i, echoes) && Blamed(v, items[i], code)
  }

  lemma FaultedInvalid(v: View, items: seq<Node>, rules: seq<Rule>, echoes: set<nat>, code: nat)
    requires Faulted(v, SchemeOf(v, rules), items, echoes, code)
    ensures !Valid(v, items, rules, echoes)
  {
    var s := SchemeOf(v, rules);
    if i :| 0 <= i < |items| && (Misflagged(v, items[i], Echoed(items[i], i, echoes)) || Forbidden(v, s, items[i])) {
      assert !Admissible(v, s, items[i], Echoed(items[i], i, echoes));
    } else if p :| 0 <= p < |s.ordered| && Exceeds(s.ordered[p], items, code) {
      assert !WithinMaxima(v, s, items);
    }
  }

  lemma {:induction false} BlamedUnsound(v: View, a: Node, code: nat)
    requires a.Node? && Blamed(v, a, code)
    ensures !Sound(v, a)
    decreases a, 0
  {
    if NodeKey(a) != FAILED_AVP && a.body.Group? && Blames(v, a.body.members, Definition(v, a).value.rules, {}, code) {
      BlamesInvalid(v, a.body.members, Definition(v, a).value.rules, {}, code);
    }
  }

  /** Only a list that breaks the grammar can be blamed, for whatever code. */
  lemma {:induction false} BlamesInvalid(v: View, items: seq<Node>, rules: seq<Rule>, echoes: set<nat>, code: nat)
    requires Blames(v, items, rules, echoes, code)
    ensures !Valid(v, items, rules, echoes)
    decreases items, 1
  {
    var s := SchemeOf(v, rules);
    if Faulted(v, s, items, echoes, code) {
      FaultedInvalid(v, items, rules, echoes, code);
    } else {
      var i :| 0 <= i < |items| && Judged(v, s, items[i]) && !Echoed(items[i], i, echoes) && Blamed(v, items[i], code);
      BlamedUnsound(v, items[i], code);
    }
  }
}
