/** validateAVPs (diam/validation.go): one pass with counters and a moving
    fixed-prefix pointer decides the grammar. */
module Validator {
  import opened Octets
  import opened Datatypes
  import opened Dictionary
  import opened Grammar

  datatype Verdict = Accepted | Rejected(code: nat)

  /** The loop's counters, the fixed rule it has reached and whether the prefix is over. */
  datatype State = State(counts: map<Key, nat>, extra: nat, unlisted: nat, index: nat, closed: bool)

  function At(counts: map<Key, nat>, k: Key): nat {
    if k in counts then counts[k] else 0
  }

  // ---- Facts about places and counts -------------------------------------------

  lemma {:induction false} PlaceOf(ordered: seq<Entry>, p: nat)
    requires Distinct(ordered) && p < |ordered|
    ensures Place(ordered, KeyOf(ordered[p])) == p
  {
    var last := |ordered| - 1;
    if p < last {
      PlaceOf(ordered[..last], p);
    }
  }

  lemma CountStep(items: seq<Node>, i: nat, k: Key)
    requires i < |items|
    ensures Count(items[..i + 1], k) == Count(items[..i], k) + if Is(items[i], k) then 1 else 0
  {
    assert items[..i + 1][..i] == items[..i];
  }

  lemma ExtraStep(v: View, s: Scheme, items: seq<Node>, i: nat)
    requires i < |items|
    ensures CountExtra(v, s, items[..i + 1]) == CountExtra(v, s, items[..i]) + if Extra(v, s, items[i]) then 1 else 0
    ensures CountUnlisted(s, items[..i + 1]) == CountUnlisted(s, items[..i]) + if Unlisted(s, items[i]) then 1 else 0
  {
    assert items[..i + 1][..i] == items[..i];
  }

  lemma {:induction false} CountGrows(items: seq<Node>, i: nat, k: Key)
    requires i <= |items|
    ensures Count(items[..i], k) <= Count(items, k)
    decreases |items| - i
  {
    if i == |items| {
      assert items[..i] == items;
    } else {
      CountStep(items, i, k);
      CountGrows(items, i + 1, k);
    }
  }

  lemma {:induction false} ExtraGrows(v: View, s: Scheme, items: seq<Node>, i: nat)
    requires i <= |items|
    ensures CountExtra(v, s, items[..i]) <= CountExtra(v, s, items)
    decreases |items| - i
  {
    if i == |items| {
      assert items[..i] == items;
    } else {
      ExtraStep(v, s, items, i);
      ExtraGrows(v, s, items, i + 1);
    }
  }

  /** More of an AVP in the whole list than before `i`: one is found at `i` or later. */
  lemma {:induction false} FoundLater(items: seq<Node>, i: nat, k: Key) returns (j: nat)
    requires i <= |items| && Count(items[..i], k) < Count(items, k)
    ensures i <= j < |items| && Is(items[j], k)
    decreases |items| - i
  {
    assert items[..|items|] == items;
    if Is(items[i], k) {
      j := i;
    } else {
      CountStep(items, i, k);
      j := FoundLater(items, i + 1, k);
    }
  }

  // ---- What the loop knows after `i` AVPs ---------------------------------------

  ghost predicate Counted(v: View, s: Scheme, items: seq<Node>, i: nat, st: State)
    requires i <= |items|
  {
    && (forall p :: 0 <= p < |s.ordered| ==> At(st.counts, KeyOf(s.ordered[p])) == Count(items[..i], KeyOf(s.ordered[p])))
    && (s.wildcard.Some? ==> st.extra == CountExtra(v, s, items[..i]) && st.unlisted == CountUnlisted(s, items[..i]))
  }

  ghost predicate Ranked(v: View, s: Scheme, items: seq<Node>, k: int, r: int) {
    0 <= k < |items| && Judged(v, s, items[k]) && Rank(s, items[k]) == r
  }

  /** The pointer has passed a fixed rule: it is used up, or a later one was seen. */
  ghost predicate Passed(v: View, s: Scheme, items: seq<Node>, i: nat, p: nat)
    requires i <= |items| && p < |s.ordered|
  {
    || !Allows(s.ordered[p].rule, Count(items[..i], KeyOf(s.ordered[p])) + 1)
    || exists k, r :: k < i && r > p && Ranked(v, s, items, k, r)
  }

  ghost predicate Pointed(v: View, s: Scheme, items: seq<Node>, i: nat, st: State)
    requires i <= |items|
  {
    && st.index <= |s.ordered|
    && FixedFirst(v, s, items[..i])
    && (st.closed <==> exists k :: k < i && Ranked(v, s, items, k, -1))
    && (forall k, r :: k < i && Ranked(v, s, items, k, r) ==> r <= st.index)
    && (forall p :: 0 <= p < st.index && s.ordered[p].rule.fixed ==> Passed(v, s, items, i, p))
  }

  ghost predicate Tracks(v: View, s: Scheme, items: seq<Node>, i: nat, echoes: set<nat>, st: State)
    requires i <= |items|
  {
    && Counted(v, s, items, i, st)
    && Pointed(v, s, items, i, st)
    && WithinMaxima(v, s, items[..i])
    && AllAdmissible(v, s, items[..i], echoes)
  }

  /** What a whole list needs besides minima and sound contents. */
  ghost predicate Orderly(v: View, s: Scheme, items: seq<Node>, echoes: set<nat>) {
    AllAdmissible(v, s, items, echoes) && WithinMaxima(v, s, items) && FixedFirst(v, s, items)
  }

  ghost predicate FixedPresent(s: Scheme, items: seq<Node>) {
    forall p :: 0 <= p < |s.ordered| && s.ordered[p].rule.fixed ==>
      Minimum(s.ordered[p].rule) <= Count(items, KeyOf(s.ordered[p]))
  }

  ghost predicate Indexed(byKey: map<Key, Entry>, ordered: seq<Entry>) {
    forall k :: (k in byKey <==> Place(ordered, k) >= 0) && (k in byKey ==> byKey[k] == ordered[Place(ordered, k)])
  }

  // ---- The pointer ---------------------------------------------------------------

  /** A fixed AVP whose rule the pointer has passed is out of order. */
  lemma PassedMisplaced(v: View, s: Scheme, items: seq<Node>, i: nat, m: nat)
    requires i < |items| && m < |s.ordered| && Ranked(v, s, items, i, m) && Passed(v, s, items, i, m)
    requires Allows(s.ordered[m].rule, Count(items[..i], KeyOf(s.ordered[m])) + 1)
    ensures !FixedFirst(v, s, items)
  {
    var k, r :| k < i && r > m && Ranked(v, s, items, k, r);
  }

  /** Skipping a fixed rule that still lacks AVPs: the missing ones come too late. */
  lemma SkippedMisplaced(v: View, s: Scheme, items: seq<Node>, i: nat, m: nat, c: nat)
    requires Distinct(s.ordered) && i < |items| && c < m < |s.ordered| && Ranked(v, s, items, i, m)
    requires s.ordered[c].rule.fixed && FixedPresent(s, items)
    requires Count(items[..i], KeyOf(s.ordered[c])) < Minimum(s.ordered[c].rule)
    ensures !FixedFirst(v, s, items)
  {
    var j := FoundLater(items, i, KeyOf(s.ordered[c]));
    PlaceOf(s.ordered, c);
    PlaceOf(s.ordered, m);
    assert Ranked(v, s, items, j, c);
  }

  /** Move the pointer to the rule at `m`, past rules whose minimum is met. */
  method Advance(s: Scheme, counts: map<Key, nat>, start: nat, key: Key, ghost m: nat)
    returns (ok: bool, index: nat)
    requires Distinct(s.ordered) && m < |s.ordered| && start <= |s.ordered|
    requires s.ordered[m].rule.fixed && KeyOf(s.ordered[m]) == key
    ensures ok ==> start <= m == index
    ensures !ok ==> m < start || exists c :: start <= c < m && s.ordered[c].rule.fixed
                                             && At(counts, KeyOf(s.ordered[c])) < Minimum(s.ordered[c].rule)
  {
    index := start;
    while index < |s.ordered|
      invariant start <= index <= |s.ordered|
      invariant start <= m ==> index <= m
    {
      var candidate := s.ordered[index];
      if candidate.rule.fixed {
        if KeyOf(candidate) == key { break; }
        if At(counts, KeyOf(candidate)) < Minimum(candidate.rule) {
          if start <= m { assert index != m; }
          return false, index;
        }
      }
      index := index + 1;
    }
    ok := index < |s.ordered| && KeyOf(s.ordered[index]) == key;
  }

  /** The next AVP is neither named nor known: nothing moves. */
  lemma PointedSkip(v: View, s: Scheme, items: seq<Node>, i: nat, st: State, next: State)
    requires i < |items| && Pointed(v, s, items, i, st) && !Judged(v, s, items[i]) && items[i].Node?
    requires next.index == st.index && next.closed == st.closed
    ensures Pointed(v, s, items, i + 1, next)
  {
    forall p | 0 <= p < st.index && s.ordered[p].rule.fixed
      ensures Passed(v, s, items, i + 1, p)
    {
      assert Passed(v, s, items, i, p);
      CountStep(items, i, KeyOf(s.ordered[p]));
    }
  }

  /** The next AVP is judged but not fixed: the prefix is over. */
  lemma PointedClose(v: View, s: Scheme, items: seq<Node>, i: nat, st: State)
    requires i < |items| && Pointed(v, s, items, i, st) && Ranked(v, s, items, i, -1)
    ensures Pointed(v, s, items, i + 1, st.(closed := true))
  {
    forall p | 0 <= p < st.index && s.ordered[p].rule.fixed
      ensures Passed(v, s, items, i + 1, p)
    {
      assert Passed(v, s, items, i, p);
      CountGrows(items[..i + 1], i, KeyOf(s.ordered[p]));
      assert items[..i + 1][..i] == items[..i];
    }
  }

  /** The next AVP is fixed, at or after the pointer, and the prefix still open. */
  lemma PointedFixed(v: View, s: Scheme, items: seq<Node>, i: nat, st: State, m: nat, index: nat)
    requires i < |items| && m < |s.ordered| && Distinct(s.ordered)
    requires Pointed(v, s, items, i, st) && Ranked(v, s, items, i, m)
    requires !st.closed && st.index <= m
    requires index == m || (index == m + 1 && !Allows(s.ordered[m].rule, Count(items[..i], KeyOf(s.ordered[m])) + 2))
    ensures Pointed(v, s, items, i + 1, st.(index := index))
  {
    forall a, b | 0 <= a < b < i + 1 && Judged(v, s, items[a]) && Judged(v, s, items[b]) && 0 <= Rank(s, items[b])
      ensures 0 <= Rank(s, items[a]) <= Rank(s, items[b])
    {
      assert Ranked(v, s, items, a, Rank(s, items[a]));
      if b < i { assert items[..i][a] == items[a] && items[..i][b] == items[b]; }
    }
    forall p | 0 <= p < index && s.ordered[p].rule.fixed
      ensures Passed(v, s, items, i + 1, p)
    {
      if p == m {
        CountStep(items, i, KeyOf(s.ordered[m]));
      } else {
        assert Ranked(v, s, items, i, m) && m > p;
      }
    }
  }

  // ---- One AVP -------------------------------------------------------------------

  /** Breaking a maximum with the AVP at `i` breaks it for the whole list. */
  lemma Overflow(v: View, s: Scheme, items: seq<Node>, i: nat, p: nat)
    requires i < |items| && p < |s.ordered| && Is(items[i], KeyOf(s.ordered[p]))
    requires !Allows(s.ordered[p].rule, Count(items[..i], KeyOf(s.ordered[p])) + 1)
    ensures !WithinMaxima(v, s, items) && Overfull(v, s, items, Excess(s.ordered[p].rule))
  {
    CountStep(items, i, KeyOf(s.ordered[p]));
    CountGrows(items, i + 1, KeyOf(s.ordered[p]));
    assert Exceeds(s.ordered[p], items, Excess(s.ordered[p].rule));
  }

  lemma ExtraOverflow(v: View, s: Scheme, items: seq<Node>, i: nat)
    requires i < |items| && s.wildcard.Some? && Extra(v, s, items[i])
    requires !Bounded(s.wildcard.value, CountExtra(v, s, items[..i]) + 1)
    ensures !WithinMaxima(v, s, items) && Overfull(v, s, items, Excess(s.wildcard.value))
  {
    ExtraStep(v, s, items, i);
    ExtraGrows(v, s, items, i + 1);
  }

  /** A maximum or the fixed order is broken, and the code says which. */
  ghost predicate Excessive(v: View, s: Scheme, items: seq<Node>, code: nat) {
    Overfull(v, s, items, code) || (code == AVP_NOT_ALLOWED && !FixedFirst(v, s, items))
  }

  /** A fixed AVP: within its maximum, in the prefix and in order. */
  method CheckFixed(ghost v: View, s: Scheme, rule: Rule, key: Key, ghost items: seq<Node>, ghost i: nat,
                    ghost m: nat, st: State)
    returns (verdict: Verdict, index: nat)
    requires Distinct(s.ordered) && i < |items| && m < |s.ordered| && Ranked(v, s, items, i, m)
    requires s.ordered[m].rule == rule && NodeKey(items[i]) == key
    requires FixedPresent(s, items) && Counted(v, s, items, i, st) && Pointed(v, s, items, i, st)
    ensures verdict.Accepted? ==>
              && !st.closed && st.index <= m
              && Allows(rule, Count(items[..i], key) + 1)
              && (index == m || (index == m + 1 && !Allows(rule, Count(items[..i], key) + 2)))
    ensures verdict.Rejected? ==> Excessive(v, s, items, verdict.code)
  {
    index := st.index;
    var max := if HasMaximum(rule) then rule.max else 1;
    if At(st.counts, key) >= max {
      Overflow(v, s, items, i, m);
      return Rejected(Excess(rule)), index;
    }
    if st.closed {
      ghost var k :| k < i && Ranked(v, s, items, k, -1);
      return Rejected(AVP_NOT_ALLOWED), index;
    }
    var ok;
    ok, index := Advance(s, st.counts, st.index, key, m);
    if !ok {
      if m < st.index {
        PassedMisplaced(v, s, items, i, m);
      } else {
        ghost var c :| st.index <= c < m && s.ordered[c].rule.fixed
                       && At(st.counts, KeyOf(s.ordered[c])) < Minimum(s.ordered[c].rule);
        SkippedMisplaced(v, s, items, i, m, c);
      }
      return Rejected(AVP_NOT_ALLOWED), index;
    }
    if At(st.counts, key) + 1 >= max { index := index + 1; }
    verdict := Accepted;
  }

  /** The counters after one more AVP, when it stays within the maxima. */
  lemma CountedStep(v: View, s: Scheme, items: seq<Node>, i: nat, st: State, next: State)
    requires i < |items| && items[i].Node? && Distinct(s.ordered)
    requires Counted(v, s, items, i, st) && WithinMaxima(v, s, items[..i])
    requires next.counts == if Judged(v, s, items[i])
                            then st.counts[NodeKey(items[i]) := At(st.counts, NodeKey(items[i])) + 1] else st.counts
    requires s.wildcard.Some? ==>
               && next.extra == st.extra + (if Extra(v, s, items[i]) then 1 else 0)
               && next.unlisted == st.unlisted + (if Unlisted(s, items[i]) then 1 else 0)
               && Bounded(s.wildcard.value, next.extra)
    requires var p := Place(s.ordered, NodeKey(items[i]));
             p >= 0 ==> Allows(s.ordered[p].rule, Count(items[..i], NodeKey(items[i])) + 1)
    ensures Counted(v, s, items, i + 1, next) && WithinMaxima(v, s, items[..i + 1])
  {
    ExtraStep(v, s, items, i);
    forall p | 0 <= p < |s.ordered|
      ensures At(next.counts, KeyOf(s.ordered[p])) == Count(items[..i + 1], KeyOf(s.ordered[p]))
      ensures Allows(s.ordered[p].rule, Count(items[..i + 1], KeyOf(s.ordered[p])))
    {
      CountStep(items, i, KeyOf(s.ordered[p]));
      PlaceOf(s.ordered, p);
    }
  }

  lemma AdmissibleStep(v: View, s: Scheme, items: seq<Node>, i: nat, echoes: set<nat>)
    requires i < |items| && AllAdmissible(v, s, items[..i], echoes)
    requires Admissible(v, s, items[i], Echoed(items[i], i, echoes))
    ensures AllAdmissible(v, s, items[..i + 1], echoes)
  {
    var seen := items[..i + 1];
    forall k | 0 <= k < |seen|
      ensures Admissible(v, s, seen[k], Echoed(seen[k], k, echoes))
    {
      if k < i { assert items[..i][k] == seen[k]; }
    }
  }

  lemma NotAdmissible(v: View, s: Scheme, items: seq<Node>, i: nat, echoes: set<nat>)
    requires i < |items| && !Admissible(v, s, items[i], Echoed(items[i], i, echoes))
    ensures !AllAdmissible(v, s, items, echoes)
  {
  }

  /** A judged AVP: the wildcard's maximum, the fixed prefix, its own maximum. */
  method CheckJudged(v: View, s: Scheme, rule: Option<Rule>, a: Node, ghost items: seq<Node>, ghost i: nat, st: State)
    returns (verdict: Verdict, next: State)
    requires Distinct(s.ordered) && FixedPresent(s, items) && i < |items| && items[i] == a && Judged(v, s, a)
    requires var m := Place(s.ordered, NodeKey(a)); rule == if m >= 0 then Some(s.ordered[m].rule) else None
    requires rule.None? ==> s.wildcard.Some?
    requires Counted(v, s, items, i, st) && Pointed(v, s, items, i, st) && WithinMaxima(v, s, items[..i])
    ensures verdict.Accepted? ==> Counted(v, s, items, i + 1, next) && Pointed(v, s, items, i + 1, next)
    ensures verdict.Accepted? ==> WithinMaxima(v, s, items[..i + 1])
    ensures verdict.Rejected? ==> Excessive(v, s, items, verdict.code)
  {
    var key := NodeKey(a);
    next := st;
    if rule.None? {
      next := next.(unlisted := next.unlisted + 1, extra := next.extra + 1);
      if HasMaximum(s.wildcard.value) && next.extra > s.wildcard.value.max {
        ExtraOverflow(v, s, items, i);
        return Rejected(Excess(s.wildcard.value)), next;
      }
    }
    ghost var m := Place(s.ordered, key);
    if rule.Some? && rule.value.fixed {
      var index;
      verdict, index := CheckFixed(v, s, rule.value, key, items, i, m, st);
      if verdict.Rejected? { return; }
      PointedFixed(v, s, items, i, st, m, index);
      next := next.(index := index);
    } else {
      PointedClose(v, s, items, i, st);
      next := next.(closed := true);
    }
    next := next.(counts := next.counts[key := At(next.counts, key) + 1]);
    if rule.Some? && HasMaximum(rule.value) && next.counts[key] > rule.value.max {
      Overflow(v, s, items, i, m);
      return Rejected(Excess(rule.value)), next;
    }
    CountedStep(v, s, items, i, st, next);
    verdict := Accepted;
  }

  /** The loop body up to the contents of the AVP. */
  method CheckItem(v: View, s: Scheme, byKey: map<Key, Entry>, a: Node, echo: bool,
                   ghost items: seq<Node>, ghost i: nat, ghost echoes: set<nat>, st: State)
    returns (verdict: Verdict, next: State)
    requires Distinct(s.ordered) && Indexed(byKey, s.ordered)
    requires i < |items| && items[i] == a && echo == Echoed(a, i, echoes)
    requires FixedPresent(s, items) && Tracks(v, s, items, i, echoes, st)
    ensures verdict.Accepted? ==> a.Node? && Tracks(v, s, items, i + 1, echoes, next)
    ensures verdict.Rejected? ==> !Orderly(v, s, items, echoes) && Faulted(v, s, items, echoes, verdict.code)
  {
    next := st;
    if a.Nil? {
      NotAdmissible(v, s, items, i, echoes);
      return Rejected(AVP_NOT_ALLOWED), next;
    }
    var key, definition := NodeKey(a), Definition(v, a);
    if definition.Some? && !echo && (a.flags >= 0x80) != (definition.value.vendor != 0) {
      NotAdmissible(v, s, items, i, echoes);
      return Rejected(INVALID_AVP_BITS), next;
    }
    if key !in byKey && s.wildcard.None? && definition.Some? {
      NotAdmissible(v, s, items, i, echoes);
      return Rejected(AVP_NOT_ALLOWED), next;
    }
    AdmissibleStep(v, s, items, i, echoes);
    if key !in byKey && definition.None? {
      if s.wildcard.Some? { next := next.(unlisted := next.unlisted + 1); }
      PointedSkip(v, s, items, i, st, next);
      CountedStep(v, s, items, i, st, next);
      return Accepted, next;
    }
    var rule := if key in byKey then Some(byKey[key].rule) else None;
    verdict, next := CheckJudged(v, s, rule, a, items, i, st);
  }

  // ---- The whole list --------------------------------------------------------------

  /** Resolve the rules: the last wildcard, and the named rules the dictionary knows. */
  method Resolve(v: View, rules: seq<Rule>) returns (s: Scheme, byKey: map<Key, Entry>)
    ensures s == SchemeOf(v, rules) && Indexed(byKey, s.ordered)
  {
    var ordered, wildcard := [], None;
    byKey := map[];
    for i := 0 to |rules|
      invariant ordered == Named(v, rules[..i]) && wildcard == Wildcard(rules[..i])
      invariant Indexed(byKey, ordered)
    {
      assert rules[..i + 1][..i] == rules[..i];
      var rule := rules[i];
      if rule.avp == WILDCARD {
        wildcard := Some(rule);
      } else {
        var definition := FindAVPByName(v.codes, v.names, v.app, rule.avp);
        if definition.Some? {
          var entry := Entry(rule, definition.value);
          assert (ordered + [entry])[..|ordered|] == ordered;
          ordered := ordered + [entry];
          byKey := byKey[KeyOf(entry) := entry];
        }
      }
    }
    assert rules[..|rules|] == rules;
    s := Scheme(ordered, wildcard);
  }

  /** Every fixed AVP is there often enough, wherever it stands. */
  method CountFixed(s: Scheme, items: seq<Node>) returns (ok: bool)
    ensures ok <==> FixedPresent(s, items)
  {
    var present: map<Key, nat> := map[];
    for i := 0 to |items|
      invariant forall k :: At(present, k) == Count(items[..i], k)
    {
      assert items[..i + 1][..i] == items[..i];
      if items[i].Node? {
        present := present[NodeKey(items[i]) := At(present, NodeKey(items[i])) + 1];
      }
    }
    assert items[..|items|] == items;
    for p := 0 to |s.ordered|
      invariant forall q :: 0 <= q < p && s.ordered[q].rule.fixed ==>
                  Minimum(s.ordered[q].rule) <= Count(items, KeyOf(s.ordered[q]))
    {
      if s.ordered[p].rule.fixed && At(present, KeyOf(s.ordered[p])) < Minimum(s.ordered[p].rule) { return false; }
    }
    ok := true;
  }

  /** The named minima, once every AVP has been counted, and the wildcard's. */
  method CheckMinima(s: Scheme, ghost items: seq<Node>, st: State) returns (ok: bool)
    requires forall p :: 0 <= p < |s.ordered| ==> At(st.counts, KeyOf(s.ordered[p])) == Count(items, KeyOf(s.ordered[p]))
    requires s.wildcard.Some? ==> st.unlisted == CountUnlisted(s, items)
    ensures ok <==> MeetsMinima(s, items)
  {
    for p := 0 to |s.ordered|
      invariant forall q :: 0 <= q < p ==> Minimum(s.ordered[q].rule) <= Count(items, KeyOf(s.ordered[q]))
    {
      if At(st.counts, KeyOf(s.ordered[p])) < Minimum(s.ordered[p].rule) { return false; }
    }
    ok := s.wildcard.None? || st.unlisted >= Minimum(s.wildcard.value);
  }

  method CountChoices(children: seq<Node>) returns (n: nat)
    ensures n == Count(children, AUTH_APPLICATION_ID) + Count(children, ACCT_APPLICATION_ID)
  {
    n := 0;
    for i := 0 to |children|
      invariant n == Count(children[..i], AUTH_APPLICATION_ID) + Count(children[..i], ACCT_APPLICATION_ID)
    {
      assert children[..i + 1][..i] == children[..i];
      if Is(children[i], AUTH_APPLICATION_ID) || Is(children[i], ACCT_APPLICATION_ID) { n := n + 1; }
    }
    assert children[..|children|] == children;
  }

  /** validateAVPs of the empty list that a nil group has. */
  method ValidateNone(v: View, rules: seq<Rule>) returns (verdict: Verdict)
    ensures verdict.Accepted? <==> MeetsMinima(SchemeOf(v, rules), [])
    ensures verdict.Accepted? <==> Valid(v, [], rules, {})
    ensures verdict.Rejected? ==> verdict.code == MISSING_AVP
  {
    var s, _ := Resolve(v, rules);
    var ok := CheckMinima(s, [], State(map[], 0, 0, 0, false));
    verdict := if ok then Accepted else Rejected(MISSING_AVP);
  }

  /** What the dictionary says about the contents of one judged AVP. */
  method CheckContents(v: View, a: Node) returns (verdict: Verdict)
    requires a.Node? && RulesDistinct(v)
    ensures verdict.Accepted? <==> Sound(v, a)
    ensures verdict.Rejected? ==> Blamed(v, a, verdict.code)
    decreases a, 0
  {
    if NodeKey(a) == FAILED_AVP {
      if !a.body.Group? { return Rejected(INVALID_AVP_VALUE); }
      if a.body.members == [] { return Rejected(MISSING_AVP); }
      return if Nil in a.body.members then Rejected(INVALID_AVP_VALUE) else Accepted;
    }
    var definition := Definition(v, a);
    if definition.Some? && definition.value.kind.GroupedType? && definition.value.rules != [] && !a.body.Leaf? {
      if a.body.Group? {
        verdict := ValidateAVPs(v, a.body.members, definition.value.rules, {});
      } else {
        verdict := ValidateNone(v, definition.value.rules);
      }
      if verdict.Rejected? { return; }
      if Key(definition.value.code, definition.value.vendor) == VENDOR_SPECIFIC_APPLICATION_ID {
        var n := CountChoices(Members(a));
        if n == 0 { return Rejected(MISSING_AVP); }
        if n > 1 { return Rejected(AVP_OCCURS_TOO_MANY_TIMES); }
      }
    }
    verdict := Accepted;
  }

  ghost predicate SoundUpTo(v: View, s: Scheme, items: seq<Node>, i: nat, echoes: set<nat>)
    requires i <= |items|
  {
    forall k :: 0 <= k < i && Judged(v, s, items[k]) && !Echoed(items[k], k, echoes) ==> Sound(v, items[k])
  }

  lemma Unsound(v: View, s: Scheme, items: seq<Node>, i: nat, echoes: set<nat>)
    requires i < |items| && Judged(v, s, items[i]) && !Echoed(items[i], i, echoes) && !Sound(v, items[i])
    ensures !AllSound(v, s, items, echoes)
  {
  }

  /** What the loop knows at the end leaves only the minima to check. */
  lemma Concluded(v: View, items: seq<Node>, rules: seq<Rule>, echoes: set<nat>, st: State)
    requires Tracks(v, SchemeOf(v, rules), items, |items|, echoes, st)
    requires SoundUpTo(v, SchemeOf(v, rules), items, |items|, echoes)
    ensures Valid(v, items, rules, echoes) <==> MeetsMinima(SchemeOf(v, rules), items)
    ensures Counted(v, SchemeOf(v, rules), items, |items|, st)
  {
    assert items[..|items|] == items;
  }

  /** validateAVPs: nil exactly for the lists the grammar allows, and otherwise
      a result code whose fault is really there. */
  method ValidateAVPs(v: View, items: seq<Node>, rules: seq<Rule>, echoes: set<nat>) returns (verdict: Verdict)
    requires RulesDistinct(v) && Distinct(Named(v, rules))
    ensures verdict.Accepted? <==> Valid(v, items, rules, echoes)
    ensures verdict.Rejected? ==> Blames(v, items, rules, echoes, verdict.code)
    decreases items, 1
  {
    var s, byKey := Resolve(v, rules);
    var present := CountFixed(s, items);
    if !present { return Rejected(MISSING_AVP); }
    var st := State(map[], 0, 0, 0, false);
    for i := 0 to |items|
      invariant Tracks(v, s, items, i, echoes, st)
      invariant SoundUpTo(v, s, items, i, echoes)
    {
      var echo := Echoed(items[i], i, echoes);
      verdict, st := CheckItem(v, s, byKey, items[i], echo, items, i, echoes, st);
      if verdict.Rejected? { return; }
      if Judged(v, s, items[i]) && !echo {
        verdict := CheckContents(v, items[i]);
        if verdict.Rejected? {
          Unsound(v, s, items, i, echoes);
          return;
        }
      }
    }
    Concluded(v, items, rules, echoes, st);
    assert items[..|items|] == items;
    var ok := CheckMinima(s, items, st);
    verdict := if ok then Accepted else Rejected(MISSING_AVP);
  }
}
