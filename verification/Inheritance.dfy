/** The application inheritance graph of a dictionary (diam/dict/snapshot.go):
    depth-first cycle detection and the breadth-first list of ancestors. */
module Inheritance {
  import opened Octets

  type Graph = map<Word, seq<Word>>

  const RELAY: Word := 0xffff_ffff

  function ParentsOf(g: Graph, id: Word): seq<Word> {
    if id in g then g[id] else []
  }

  /** Every step of `p` goes from an application to one of its parents. */
  ghost predicate IsPath(g: Graph, p: seq<Word>) {
    forall i, j :: 0 <= i < j < |p| && j == i + 1 ==> p[j] in ParentsOf(g, p[i])
  }

  ghost predicate IsCycle(g: Graph, p: seq<Word>) {
    |p| >= 2 && p[0] == p[|p| - 1] && IsPath(g, p)
  }

  ghost predicate Cyclic(g: Graph) {
    exists p :: IsCycle(g, p)
  }

  /** What validateParents demands before it looks for cycles. */
  predicate Declared(g: Graph, apps: set<Word>) {
    && ParentsOf(g, 0) == []
    && forall id :: id in g ==> forall i :: 0 <= i < |g[id]| ==> g[id][i] != RELAY && (g[id][i] != 0 ==> g[id][i] in apps)
  }

  /** All applications the graph mentions. */
  function Mentioned(g: Graph): (ids: set<Word>)
    ensures forall id :: id in g ==> id in ids
    ensures forall id, x :: id in g && x in g[id] ==> x in ids
  {
    g.Keys + set id, x | id in g && x in g[id] :: x
  }

  // ---- Cycle detection -------------------------------------------------------

  datatype Colour = Active | Finished

  /** In `order` every application comes after all its parents. */
  ghost predicate ParentsFirst(g: Graph, order: seq<Word>) {
    forall i, x :: 0 <= i < |order| && x in ParentsOf(g, order[i]) ==> x in order[..i]
  }

  predicate IsFinished(state: map<Word, Colour>, id: Word) {
    id in state && state[id] == Finished
  }

  predicate AllFinished(state: map<Word, Colour>, ids: seq<Word>) {
    forall k :: 0 <= k < |ids| ==> IsFinished(state, ids[k])
  }

  lemma StillFinished(before: map<Word, Colour>, after: map<Word, Colour>, ids: seq<Word>, i: nat)
    requires i < |ids| && AllFinished(before, ids[..i]) && IsFinished(after, ids[i])
    requires forall x :: IsFinished(before, x) ==> IsFinished(after, x)
    ensures AllFinished(after, ids[..i + 1])
  {
    assert ids[..i + 1] == ids[..i] + [ids[i]];
  }

  /** The colours of a search that is inside the calls on `stack`, having
      finished `order`. */
  ghost predicate Searching(g: Graph, state: map<Word, Colour>, stack: seq<Word>, order: seq<Word>) {
    && IsPath(g, stack)
    && ParentsFirst(g, order)
    && (forall id :: id in state && state[id] == Active <==> id in stack)
    && (forall id :: IsFinished(state, id) <==> id in order)
  }

  lemma BackEdge(g: Graph, stack: seq<Word>, id: Word)
    requires IsPath(g, stack + [id]) && id in stack
    ensures Cyclic(g)
  {
    var i :| 0 <= i < |stack| && stack[i] == id;
    var p := (stack + [id])[i..];
    assert IsPath(g, p) by {
      forall k, l | 0 <= k < l < |p| && l == k + 1 ensures p[l] in ParentsOf(g, p[k]) {
        assert p[k] == (stack + [id])[i + k] && p[l] == (stack + [id])[i + l];
      }
    }
    assert IsCycle(g, p);
  }

  lemma Enter(g: Graph, state: map<Word, Colour>, stack: seq<Word>, order: seq<Word>, id: Word)
    requires Searching(g, state, stack, order) && IsPath(g, stack + [id]) && id !in state
    ensures Searching(g, state[id := Active], stack + [id], order)
  {
    assert forall x :: x in stack + [id] <==> x in stack || x == id;
  }

  lemma Leave(g: Graph, state: map<Word, Colour>, stack: seq<Word>, order: seq<Word>, id: Word)
    requires Searching(g, state, stack + [id], order) && id !in stack
    requires AllFinished(state, ParentsOf(g, id))
    ensures Searching(g, state[id := Finished], stack, order + [id])
  {
    FinishLast(g, order, id);
    var inside := stack + [id];
    assert forall x :: x in inside <==> x in stack || x == id;
    assert forall x :: x in order + [id] <==> x in order || x == id;
    forall i, j | 0 <= i < j < |stack| && j == i + 1 ensures stack[j] in ParentsOf(g, stack[i]) {
      assert inside[j] in ParentsOf(g, inside[i]);
    }
  }

  lemma OneMore(g: Graph, stack: seq<Word>, x: Word)
    requires IsPath(g, stack) && |stack| > 0 && x in ParentsOf(g, stack[|stack| - 1])
    ensures IsPath(g, stack + [x]) && x in Mentioned(g)
  {
  }

  /** Colouring one more application leaves fewer to visit. */
  lemma Shrinks(all: set<Word>, before: set<Word>, after: set<Word>, id: Word)
    requires id in all && id !in before && id in after && before <= after
    ensures |all - after| < |all - before|
  {
    var rest := all - before - {id};
    assert all - before == rest + {id};
    assert all - after <= rest;
    Smaller(all - after, rest);
  }

  lemma Smaller(a: set<Word>, b: set<Word>)
    requires a <= b
    ensures |a| <= |b|
  {
    assert b == a + (b - a);
  }

  /** visit: depth-first search below one application. It ends on every graph. */
  method Visit(g: Graph, id: Word, state: map<Word, Colour>, ghost stack: seq<Word>, ghost order: seq<Word>)
    returns (ok: bool, after: map<Word, Colour>, ghost done: seq<Word>)
    requires id in Mentioned(g) && Searching(g, state, stack, order) && IsPath(g, stack + [id])
    ensures !ok ==> Cyclic(g)
    ensures ok ==> Searching(g, after, stack, done) && IsFinished(after, id)
    ensures forall x :: x in state ==> x in after
    ensures forall x :: IsFinished(state, x) ==> IsFinished(after, x)
    decreases |Mentioned(g) - state.Keys|
  {
    after, done := state, order;
    if id in state {
      if state[id] == Active {
        BackEdge(g, stack, id);
        return false, after, done;
      }
      return true, after, done;
    }
    Enter(g, state, stack, order, id);
    after := after[id := Active];
    ghost var inside := stack + [id];
    var parents := ParentsOf(g, id);
    var i := 0;
    while i < |parents|
      invariant i <= |parents|
      invariant Searching(g, after, inside, done)
      invariant AllFinished(after, parents[..i])
      invariant forall x :: IsFinished(state, x) ==> IsFinished(after, x)
      invariant forall x :: x in state || x == id ==> x in after
    {
      Shrinks(Mentioned(g), state.Keys, after.Keys, id);
      OneMore(g, inside, parents[i]);
      ghost var before := after;
      ok, after, done := Visit(g, parents[i], after, inside, done);
      if !ok {
        return;
      }
      StillFinished(before, after, parents, i);
      i := i + 1;
    }
    assert parents[..i] == parents;
    Leave(g, after, stack, done, id);
    after, done := after[id := Finished], done + [id];
    ok := true;
  }

  lemma FinishLast(g: Graph, order: seq<Word>, id: Word)
    requires ParentsFirst(g, order) && forall x :: x in ParentsOf(g, id) ==> x in order
    ensures ParentsFirst(g, order + [id])
  {
    forall i, x | 0 <= i < |order + [id]| && x in ParentsOf(g, (order + [id])[i])
      ensures x in (order + [id])[..i]
    {
      assert (order + [id])[..i] == order[..i];
      if i == |order| { assert order[..i] == order; }
    }
  }

  /** Along a path the position in a finished search falls at every step. */
  lemma {:induction false} PathDescends(g: Graph, order: seq<Word>, p: seq<Word>, n: nat)
    requires ParentsFirst(g, order) && IsPath(g, p) && |p| >= 1
    requires n <= |order| && p[0] in order[..n]
    ensures n >= |p| && p[|p| - 1] in order[..n - |p| + 1]
    decreases |p|
  {
    if |p| > 1 {
      var i :| 0 <= i < n && order[i] == p[0];
      assert p[1] in order[..i];
      assert IsPath(g, p[1..]) by {
        forall k, l | 0 <= k < l < |p[1..]| && l == k + 1 ensures p[1..][l] in ParentsOf(g, p[1..][k]) {
          assert p[1..][k] == p[k + 1] && p[1..][l] == p[l + 1];
        }
      }
      PathDescends(g, order, p[1..], i);
    }
  }

  lemma {:induction false} NoCycleInOrder(g: Graph, order: seq<Word>, p: seq<Word>, n: nat)
    requires ParentsFirst(g, order) && IsCycle(g, p) && n <= |order|
    ensures p[0] !in order[..n]
    decreases n
  {
    if p[0] in order[..n] {
      PathDescends(g, order, p, n);
      NoCycleInOrder(g, order, p, n - |p| + 1);
    }
  }

  /** validateParents: accepted exactly when base inherits nothing, no parent
      is Relay, every other parent is declared, and there is no cycle. */
  method ValidateParents(g: Graph, apps: set<Word>) returns (ok: bool)
    ensures ok <==> Declared(g, apps) && !Cyclic(g)
  {
    if !Declared(g, apps) {
      return false;
    }
    var state: map<Word, Colour> := map[];
    ghost var order: seq<Word> := [];
    var todo := g.Keys;
    while todo != {}
      invariant todo <= g.Keys
      invariant Searching(g, state, [], order)
      invariant forall id :: id in g && id !in todo ==> IsFinished(state, id)
    {
      var id :| id in todo;
      assert IsPath(g, [] + [id]);
      ok, state, order := Visit(g, id, state, [], order);
      if !ok {
        return;
      }
      todo := todo - {id};
    }
    if Cyclic(g) {
      var p :| IsCycle(g, p);
      assert p[1] in ParentsOf(g, p[0]);
      assert order[..|order|] == order;
      NoCycleInOrder(g, order, p, |order|);
    }
    ok := true;
  }
}
