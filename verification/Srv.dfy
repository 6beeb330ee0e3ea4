/** SRV ordering by priority and weighted draw (RFC 2782; dnsdiam/discover.go,
    orderSRV). */
module Srv {
  import opened Octets

  datatype SRV = SRV(priority: nat, weight: nat, port: nat, target: string)

  ghost predicate Ascending(s: seq<SRV>) {
    forall i, j :: 0 <= i < j < |s| ==> s[i].priority <= s[j].priority
  }

  ghost predicate AtMost(s: seq<SRV>, m: nat) {
    forall i :: 0 <= i < |s| ==> s[i].priority <= m
  }

  // ---- Rearranging ---------------------------------------------------------------------

  /** How often a record occurs. */
  ghost function Occurs(s: seq<SRV>, x: SRV): nat {
    if s == [] then 0 else Occurs(s[..|s| - 1], x) + if s[|s| - 1] == x then 1 else 0
  }

  ghost predicate Rearranges(a: seq<SRV>, b: seq<SRV>) {
    forall x :: Occurs(a, x) == Occurs(b, x)
  }

  lemma {:induction false} OccursConcat(a: seq<SRV>, b: seq<SRV>, x: SRV)
    ensures Occurs(a + b, x) == Occurs(a, x) + Occurs(b, x)
  {
    if b == [] {
      assert a + b == a;
    } else {
      OccursConcat(a, b[..|b| - 1], x);
      assert (a + b)[..|a + b| - 1] == a + b[..|b| - 1];
    }
  }

  lemma OccursOne(x: SRV, y: SRV)
    ensures Occurs([x], y) == if x == y then 1 else 0
  {
    assert [x][..0] == [];
    assert Occurs([], y) == 0;
  }

  lemma OccursSplit(s: seq<SRV>, i: nat, x: SRV)
    requires i <= |s|
    ensures Occurs(s, x) == Occurs(s[..i], x) + Occurs(s[i..], x)
  {
    assert s == s[..i] + s[i..];
    OccursConcat(s[..i], s[i..], x);
  }

  /** Taking the record at `i` out and setting it aside loses nothing. */
  lemma OccursRemove(s: seq<SRV>, i: nat, x: SRV)
    requires i < |s|
    ensures Occurs(s, x) == Occurs(s[..i] + s[i + 1..], x) + if s[i] == x then 1 else 0
  {
    OccursSplit(s, i, x);
    OccursSplit(s[i..], 1, x);
    assert s[i..][..1] == [s[i]] && s[i..][1..] == s[i + 1..];
    OccursOne(s[i], x);
    OccursConcat(s[..i], s[i + 1..], x);
  }

  lemma {:induction false} OccursIn(s: seq<SRV>, x: SRV)
    ensures Occurs(s, x) > 0 <==> x in s
  {
    if s != [] {
      OccursIn(s[..|s| - 1], x);
      assert s == s[..|s| - 1] + [s[|s| - 1]];
    }
  }

  /** Occurrence counts are multiset multiplicities, so nothing is lost or gained. */
  lemma {:induction false} OccursMultiset(s: seq<SRV>, x: SRV)
    ensures Occurs(s, x) == multiset(s)[x]
  {
    if s != [] {
      OccursMultiset(s[..|s| - 1], x);
      assert s == s[..|s| - 1] + [s[|s| - 1]];
    }
  }

  // ---- The stable sorts ----------------------------------------------------------------

  /** Insert behind everything that sorts no later. */
  function Insert(s: seq<SRV>, x: SRV): seq<SRV> {
    if s == [] || s[|s| - 1].priority <= x.priority then s + [x]
    else Insert(s[..|s| - 1], x) + [s[|s| - 1]]
  }

  lemma {:induction false} InsertOccurs(s: seq<SRV>, x: SRV, y: SRV)
    ensures Occurs(Insert(s, x), y) == Occurs(s, y) + if x == y then 1 else 0
  {
    OccursOne(x, y);
    if s == [] || s[|s| - 1].priority <= x.priority {
      OccursConcat(s, [x], y);
    } else {
      InsertOccurs(s[..|s| - 1], x, y);
      OccursConcat(Insert(s[..|s| - 1], x), [s[|s| - 1]], y);
      OccursOne(s[|s| - 1], y);
    }
  }

  lemma {:induction false} InsertAtMost(s: seq<SRV>, x: SRV, m: nat)
    requires AtMost(s, m) && x.priority <= m
    ensures AtMost(Insert(s, x), m)
  {
    if s != [] { InsertAtMost(s[..|s| - 1], x, m); }
  }

  lemma {:induction false} InsertAscends(s: seq<SRV>, x: SRV)
    requires Ascending(s)
    ensures Ascending(Insert(s, x))
  {
    if s != [] && s[|s| - 1].priority > x.priority {
      var last := |s| - 1;
      var front := Insert(s[..last], x);
      InsertAscends(s[..last], x);
      assert AtMost(s[..last], s[last].priority);
      InsertAtMost(s[..last], x, s[last].priority);
      assert Insert(s, x) == front + [s[last]];
    }
  }

  lemma {:induction false} InsertSize(s: seq<SRV>, x: SRV)
    ensures |Insert(s, x)| == |s| + 1
  {
    if s != [] { InsertSize(s[..|s| - 1], x); }
  }

  function Sorted(s: seq<SRV>): seq<SRV> {
    if s == [] then [] else Insert(Sorted(s[..|s| - 1]), s[|s| - 1])
  }

  lemma {:induction false} SortedSorts(s: seq<SRV>)
    ensures Ascending(Sorted(s)) && Rearranges(Sorted(s), s) && |Sorted(s)| == |s|
  {
    if s != [] {
      var front, x := Sorted(s[..|s| - 1]), s[|s| - 1];
      SortedSorts(s[..|s| - 1]);
      InsertAscends(front, x);
      InsertSize(front, x);
      forall y ensures Occurs(Sorted(s), y) == Occurs(s, y) {
        InsertOccurs(front, x, y);
      }
    }
  }

  function Kept(s: seq<SRV>, zero: bool): seq<SRV> {
    if s == [] then []
    else Kept(s[..|s| - 1], zero) + if (s[|s| - 1].weight == 0) == zero then [s[|s| - 1]] else []
  }

  lemma {:induction false} KeptOccurs(s: seq<SRV>, zero: bool, x: SRV)
    ensures Occurs(Kept(s, zero), x) == if (x.weight == 0) == zero then Occurs(s, x) else 0
  {
    if s != [] {
      var last := s[|s| - 1];
      KeptOccurs(s[..|s| - 1], zero, x);
      OccursConcat(Kept(s[..|s| - 1], zero), if (last.weight == 0) == zero then [last] else [], x);
      OccursOne(last, x);
    }
  }

  lemma {:induction false} KeptSizes(s: seq<SRV>)
    ensures |Kept(s, true)| + |Kept(s, false)| == |s|
  {
    if s != [] { KeptSizes(s[..|s| - 1]); }
  }

  /** The stable sort that puts weightless records first. */
  function ZeroFirst(s: seq<SRV>): (r: seq<SRV>)
    ensures |r| == |s|
  {
    KeptSizes(s);
    Kept(s, true) + Kept(s, false)
  }

  lemma ZeroFirstOccurs(s: seq<SRV>, x: SRV)
    ensures Occurs(ZeroFirst(s), x) == Occurs(s, x)
  {
    KeptOccurs(s, true, x);
    KeptOccurs(s, false, x);
    OccursConcat(Kept(s, true), Kept(s, false), x);
  }

  // ---- The draw --------------------------------------------------------------------------

  function Total(s: seq<SRV>): nat {
    if s == [] then 0 else Total(s[..|s| - 1]) + s[|s| - 1].weight
  }

  lemma TotalStep(s: seq<SRV>, i: nat)
    requires i < |s|
    ensures Total(s[..i + 1]) == Total(s[..i]) + s[i].weight
  {
    assert s[..i + 1][..i] == s[..i];
  }

  lemma {:induction false} TotalGrows(s: seq<SRV>, i: nat, j: nat)
    requires i <= j <= |s|
    ensures Total(s[..i]) <= Total(s[..j])
    decreases j - i
  {
    if i < j {
      TotalStep(s, i);
      TotalGrows(s, i + 1, j);
    }
  }

  /** The draws that choose the record at `i`: those its running sum is the first to reach. */
  ghost predicate Chooses(s: seq<SRV>, i: nat, draw: int)
    requires i < |s|
  {
    (if i == 0 then 0 <= draw else Total(s[..i]) < draw) && draw <= Total(s[..i + 1])
  }

  /** A draw chooses one record only. */
  lemma ChoosesOne(s: seq<SRV>, i: nat, j: nat, draw: int)
    requires i < j < |s| && Chooses(s, i, draw)
    ensures !Chooses(s, j, draw)
  {
    TotalGrows(s, i + 1, j);
  }

  predicate InRange(s: seq<SRV>, draw: int) {
    0 <= draw <= Total(s)
  }

  /** The record that a draw chooses. */
  function Chosen(s: seq<SRV>, draw: int): (i: nat)
    requires s != [] && InRange(s, draw)
    ensures i < |s|
  {
    var front := s[..|s| - 1];
    if front == [] || draw > Total(front) then |s| - 1 else Chosen(front, draw)
  }

  lemma {:induction false} ChosenChooses(s: seq<SRV>, draw: int)
    requires s != [] && InRange(s, draw)
    ensures Chooses(s, Chosen(s, draw), draw)
  {
    var front := s[..|s| - 1];
    assert s[..|s|] == s;
    if front != [] && draw <= Total(front) {
      ChosenChooses(front, draw);
      var i := Chosen(front, draw);
      assert front[..i] == s[..i] && front[..i + 1] == s[..i + 1];
    }
  }

  lemma ChosenOnly(s: seq<SRV>, i: nat, draw: int)
    requires i < |s| && InRange(s, draw)
    ensures Chooses(s, i, draw) <==> Chosen(s, draw) == i
  {
    ChosenChooses(s, draw);
    var j := Chosen(s, draw);
    if i < j && Chooses(s, i, draw) { ChoosesOne(s, i, j, draw); }
    if j < i { ChoosesOne(s, j, i, draw); }
  }

  method Choose(s: seq<SRV>, draw: nat) returns (index: nat)
    requires s != [] && draw <= Total(s)
    ensures index == Chosen(s, draw)
  {
    var sum := 0;
    index := 0;
    assert s[..|s|] == s;
    TotalStep(s, 0);
    while sum + s[index].weight < draw
      invariant index < |s| && sum == Total(s[..index]) && (index > 0 ==> sum < draw)
      decreases |s| - index
    {
      TotalStep(s, index);
      sum, index := sum + s[index].weight, index + 1;
    }
    TotalStep(s, index);
    ChosenOnly(s, index, draw);
  }

  function Between(lo: int, hi: int): (r: set<int>)
    ensures forall d :: d in r <==> lo < d <= hi
    ensures |r| == if lo < hi then hi - lo else 0
    decreases hi - lo
  {
    if hi <= lo then {} else Between(lo, hi - 1) + {hi}
  }

  /** Of the total + 1 equally likely draws, a record of weight w is chosen by
      exactly w of them, and by one more if it stands first. */
  lemma WeightShare(s: seq<SRV>, i: nat) returns (draws: set<int>)
    requires i < |s|
    ensures forall d :: d in draws <==> InRange(s, d) && Chosen(s, d) == i
    ensures |draws| == s[i].weight + if i == 0 then 1 else 0
  {
    draws := Between(if i == 0 then -1 else Total(s[..i]), Total(s[..i + 1]));
    TotalStep(s, i);
    TotalGrows(s, i + 1, |s|);
    assert s[..|s|] == s;
    forall d ensures d in draws <==> InRange(s, d) && Chosen(s, d) == i {
      if InRange(s, d) { ChosenOnly(s, i, d); }
    }
  }

  // ---- The order ---------------------------------------------------------------------------

  /** What has been placed, what is left of the priority being placed, and the
      records of later priorities. */
  datatype Stage = Stage(done: seq<SRV>, group: seq<SRV>, later: seq<SRV>)

  /** Where the records that share the first one's priority end. */
  function GroupEnd(records: seq<SRV>, end: nat): (r: nat)
    requires 0 < end <= |records|
    ensures end <= r <= |records|
    ensures forall i :: end <= i < r ==> records[i].priority == records[0].priority
    ensures r < |records| ==> records[r].priority != records[0].priority
    decreases |records| - end
  {
    if end < |records| && records[end].priority == records[0].priority then GroupEnd(records, end + 1) else end
  }

  /** Go on to the next priority once a group is empty. */
  function Refill(s: Stage): Stage {
    if s.group == [] && s.later != [] then
      var end := GroupEnd(s.later, 1);
      Stage(s.done, s.later[..end], s.later[end..])
    else s
  }

  /** The records in play for the next draw, weightless ones first. */
  function Facing(s: Stage): seq<SRV> {
    ZeroFirst(s.group)
  }

  predicate Drawable(s: Stage, draw: int) {
    s.group != [] && InRange(Facing(s), draw)
  }

  function Without(s: seq<SRV>, i: nat): seq<SRV>
    requires i < |s|
  {
    s[..i] + s[i + 1..]
  }

  function Placed(s: Stage, draw: int): Stage
    requires Drawable(s, draw)
  {
    var z := Facing(s);
    var i := Chosen(z, draw);
    Stage(s.done + [z[i]], Without(z, i), s.later)
  }

  function Next(s: Option<Stage>, draw: int): Option<Stage> {
    if s.None? || !Drawable(s.value, draw) then None else Some(Refill(Placed(s.value, draw)))
  }

  /** The stage that the first `k` draws lead to; none if one was out of range
      for what it was made over. */
  function After(all: seq<SRV>, draws: seq<int>, k: nat): Option<Stage>
    requires k <= |draws|
  {
    if k == 0 then Some(Refill(Stage([], [], Sorted(all)))) else Next(After(all, draws, k - 1), draws[k - 1])
  }

  /** The order that these draws give. */
  function Order(all: seq<SRV>, draws: seq<int>): Option<seq<SRV>>
    requires |all| <= |draws|
  {
    var end := After(all, draws, |all|);
    if end.None? then None else Some(end.value.done)
  }

  /** Later draws do not matter. */
  lemma {:induction false} EarlierDrawsOnly(all: seq<SRV>, draws: seq<int>, other: seq<int>, k: nat)
    requires k <= |draws| && k <= |other| && draws[..k] == other[..k]
    ensures After(all, draws, k) == After(all, other, k)
  {
    hide Next, Refill, Sorted;
    if k > 0 {
      assert draws[k - 1] == draws[..k][k - 1] && other[k - 1] == other[..k][k - 1];
      assert draws[..k - 1] == draws[..k][..k - 1] && other[..k - 1] == other[..k][..k - 1];
      EarlierDrawsOnly(all, draws, other, k - 1);
    }
  }

  lemma NextDone(s: Option<Stage>, draw: int)
    requires Next(s, draw).Some?
    ensures s.Some? && Drawable(s.value, draw)
    ensures Next(s, draw).value.done == s.value.done + [Facing(s.value)[Chosen(Facing(s.value), draw)]]
  {
  }

  /** A draw that fails is not recovered from. */
  lemma {:induction false} AfterPrefix(all: seq<SRV>, draws: seq<int>, j: nat, k: nat)
    requires j <= k <= |draws| && After(all, draws, k).Some?
    ensures After(all, draws, j).Some? && After(all, draws, j).value.done <= After(all, draws, k).value.done
    decreases k
  {
    hide Next, Refill, Sorted, Facing, Chosen;
    if j < k {
      NextDone(After(all, draws, k - 1), draws[k - 1]);
      AfterPrefix(all, draws, j, k - 1);
    }
  }

  /** What is placed comes first, then what is in play, then what is later. */
  ghost predicate Staged(s: Stage) {
    && Ascending(s.done) && Ascending(s.later) && (s.group != [] ==> Level(s.group, s.group[0].priority))
    && (forall x, y :: x in s.done && y in s.group ==> x.priority <= y.priority)
    && Precede(s.done, s.later) && Precede(s.group, s.later)
  }

  /** Nothing is lost between the stages. */
  ghost predicate Whole(all: seq<SRV>, s: Stage) {
    forall x :: Occurs(all, x) == Occurs(s.done, x) + Occurs(s.group, x) + Occurs(s.later, x)
  }

  lemma RefillWhole(all: seq<SRV>, s: Stage)
    requires Whole(all, s)
    ensures Whole(all, Refill(s))
  {
    if s.group == [] && s.later != [] {
      var r := Refill(s);
      forall x ensures Occurs(all, x) == Occurs(r.done, x) + Occurs(r.group, x) + Occurs(r.later, x) {
        OccursSplit(s.later, GroupEnd(s.later, 1), x);
      }
    }
  }

  ghost predicate Precede(a: seq<SRV>, b: seq<SRV>) {
    forall x, y :: x in a && y in b ==> x.priority < y.priority
  }

  ghost predicate Level(s: seq<SRV>, m: nat) {
    forall x :: x in s ==> x.priority == m
  }

  lemma SplitLevels(s: seq<SRV>)
    requires s != [] && Ascending(s)
    ensures var end := GroupEnd(s, 1);
            Level(s[..end], s[0].priority) && Precede(s[..end], s[end..]) && Ascending(s[end..])
  {
    var end := GroupEnd(s, 1);
    forall j | end <= j < |s| ensures s[0].priority < s[j].priority {
      assert s[0].priority <= s[end].priority;
      assert end < j ==> s[end].priority <= s[j].priority;
    }
  }

  lemma RefillStaged(s: Stage)
    requires Staged(s)
    ensures Staged(Refill(s))
  {
    if s.group == [] && s.later != [] {
      var end := GroupEnd(s.later, 1);
      SplitLevels(s.later);
      forall x | x in s.later[..end] || x in s.later[end..] ensures x in s.later {
      }
    }
  }

  lemma PlacedWhole(all: seq<SRV>, s: Stage, draw: int)
    requires Whole(all, s) && Drawable(s, draw)
    ensures Whole(all, Placed(s, draw)) && |Placed(s, draw).group| + 1 == |s.group|
  {
    var z := Facing(s);
    var i := Chosen(z, draw);
    var n := Placed(s, draw);
    forall x ensures Occurs(all, x) == Occurs(n.done, x) + Occurs(n.group, x) + Occurs(n.later, x) {
      ZeroFirstOccurs(s.group, x);
      OccursRemove(z, i, x);
      OccursConcat(s.done, [z[i]], x);
      OccursOne(z[i], x);
    }
  }

  lemma FacingIn(s: Stage, x: SRV)
    ensures x in Facing(s) <==> x in s.group
  {
    OccursIn(Facing(s), x);
    OccursIn(s.group, x);
    ZeroFirstOccurs(s.group, x);
  }

  lemma AscendingMore(s: seq<SRV>, x: SRV)
    requires Ascending(s) && forall y :: y in s ==> y.priority <= x.priority
    ensures Ascending(s + [x])
  {
  }

  lemma PlacedStaged(s: Stage, draw: int)
    requires Staged(s) && Drawable(s, draw)
    ensures Staged(Placed(s, draw))
  {
    hide Chosen, ZeroFirst, Ascending;
    var z := Facing(s);
    var i := Chosen(z, draw);
    var n := Placed(s, draw);
    FacingIn(s, z[i]);
    AscendingMore(s.done, z[i]);
    forall x | x in n.group ensures x in s.group {
      assert x in z;
      FacingIn(s, x);
    }
    forall x | x in n.done ensures x in s.done || x == z[i] {
    }
  }

  ghost predicate Keeps(all: seq<SRV>, s: Stage, k: nat) {
    && Whole(all, s) && Staged(s) && |s.done| == k && |s.done| + |s.group| + |s.later| == |all|
    && (s.group == [] ==> s.later == [])
  }

  lemma NextKeeps(all: seq<SRV>, s: Stage, draw: int, k: nat)
    requires Keeps(all, s, k) && Next(Some(s), draw).Some?
    ensures Keeps(all, Next(Some(s), draw).value, k + 1)
  {
    hide Sorted, Facing, Chosen, Staged, Whole;
    PlacedWhole(all, s, draw);
    PlacedStaged(s, draw);
    RefillWhole(all, Placed(s, draw));
    RefillStaged(Placed(s, draw));
  }

  lemma FirstKeeps(all: seq<SRV>)
    ensures Keeps(all, Refill(Stage([], [], Sorted(all))), 0)
  {
    hide Sorted;
    SortedSorts(all);
    var s := Stage([], [], Sorted(all));
    RefillWhole(all, s);
    RefillStaged(s);
  }

  /** What every stage keeps. */
  lemma {:induction false} StageKeeps(all: seq<SRV>, draws: seq<int>, k: nat)
    requires k <= |draws| && After(all, draws, k).Some?
    ensures Keeps(all, After(all, draws, k).value, k)
  {
    hide Next, Sorted, Keeps, Facing, Chosen;
    if k == 0 {
      FirstKeeps(all);
    } else {
      NextDone(After(all, draws, k - 1), draws[k - 1]);
      StageKeeps(all, draws, k - 1);
      NextKeeps(all, After(all, draws, k - 1).value, draws[k - 1], k - 1);
    }
  }

  /** The records facing a draw are exactly those of the lowest priority not placed yet. */
  lemma FacingIsLowest(all: seq<SRV>, draws: seq<int>, k: nat, x: SRV)
    requires k <= |draws| && After(all, draws, k).Some? && After(all, draws, k).value.group != []
    ensures var s := After(all, draws, k).value;
            && Occurs(Facing(s), x) == (if x.priority == s.group[0].priority then Occurs(all, x) - Occurs(s.done, x) else 0)
            && (Occurs(all, x) > Occurs(s.done, x) ==> s.group[0].priority <= x.priority)
  {
    var s := After(all, draws, k).value;
    StageKeeps(all, draws, k);
    ZeroFirstOccurs(s.group, x);
    OccursIn(s.done, x);
    OccursIn(s.group, x);
    OccursIn(s.later, x);
    assert s.group[0] in s.group;
  }

  /** The order is a rearrangement of the records, by ascending priority. */
  lemma OrderSorts(all: seq<SRV>, draws: seq<int>)
    requires |all| <= |draws| && Order(all, draws).Some?
    ensures var o := Order(all, draws).value; multiset(o) == multiset(all) && Ascending(o) && |o| == |all|
  {
    var s := After(all, draws, |all|).value;
    StageKeeps(all, draws, |all|);
    forall x ensures multiset(s.done)[x] == multiset(all)[x] {
      OccursMultiset(s.done, x);
      OccursMultiset(all, x);
      assert s.group == [] && s.later == [];
    }
  }

  /** The p-th record is the one that the p-th draw chooses among those facing it. */
  lemma OrderPlaces(all: seq<SRV>, draws: seq<int>, p: nat)
    requires p < |all| <= |draws| && Order(all, draws).Some?
    ensures |Order(all, draws).value| == |all|
    ensures After(all, draws, p).Some? && Drawable(After(all, draws, p).value, draws[p])
    ensures var z := Facing(After(all, draws, p).value);
            Order(all, draws).value[p] == z[Chosen(z, draws[p])]
  {
    hide Next, Refill, Sorted, Facing, Chosen;
    AfterPrefix(all, draws, p + 1, |all|);
    NextDone(After(all, draws, p), draws[p]);
    StageKeeps(all, draws, p);
    StageKeeps(all, draws, |all|);
  }

  /** With the earlier draws fixed, exactly w of the total + 1 values of the k-th
      put a record of weight w into place k, and one more if it stands first. */
  lemma PlaceShare(all: seq<SRV>, draws: seq<int>, k: nat, i: nat) returns (share: set<int>)
    requires k < |draws| && After(all, draws, k).Some? && i < |After(all, draws, k).value.group|
    ensures |share| == Facing(After(all, draws, k).value)[i].weight + if i == 0 then 1 else 0
    ensures forall d :: d in share <==> Puts(all, draws, k, i, d)
  {
    hide ZeroFirst, Chosen, GroupEnd, Sorted;
    var s := After(all, draws, k).value;
    share := WeightShare(Facing(s), i);
    forall d ensures d in share <==> Puts(all, draws, k, i, d) {
      EarlierDrawsOnly(all, draws, draws[k := d], k);
      assert After(all, draws[k := d], k + 1) == Next(Some(s), d);
    }
  }

  /** Were `d` the k-th draw, the record facing it at `i` would take place k. */
  ghost predicate Puts(all: seq<SRV>, draws: seq<int>, k: nat, i: nat, d: int)
    requires k < |draws| && After(all, draws, k).Some? && i < |After(all, draws, k).value.group|
  {
    var s, next := After(all, draws, k).value, After(all, draws[k := d], k + 1);
    Drawable(s, d) && Chosen(Facing(s), d) == i && next.Some? && next.value.done == s.done + [Facing(s)[i]]
  }

  /** The p-th draw is the first out of range for what faces it. */
  ghost predicate FailsAt(all: seq<SRV>, draws: seq<int>, p: nat)
    requires p < |draws|
  {
    After(all, draws, p).Some? && !InRange(Facing(After(all, draws, p).value), draws[p])
  }

  lemma LastFails(all: seq<SRV>, draws: seq<int>, k: nat)
    requires k < |all| <= |draws|
    ensures After(all, draws, k + 1).None? <==> After(all, draws, k).None? || FailsAt(all, draws, k)
  {
    if After(all, draws, k).Some? { StageKeeps(all, draws, k); }
  }

  lemma {:induction false} LostStays(all: seq<SRV>, draws: seq<int>, j: nat, k: nat)
    requires j <= k <= |draws| && After(all, draws, j).None?
    ensures After(all, draws, k).None?
    decreases k
  {
    hide Refill, Placed, Drawable, Sorted;
    if j < k {
      LostStays(all, draws, j, k - 1);
      assert Next(None, draws[k - 1]).None?;
    }
  }

  lemma {:induction false} FirstFailure(all: seq<SRV>, draws: seq<int>, k: nat) returns (p: nat)
    requires k <= |all| <= |draws| && After(all, draws, k).None?
    ensures p < k && FailsAt(all, draws, p)
    decreases k
  {
    hide Next, Refill, Sorted, FailsAt;
    LastFails(all, draws, k - 1);
    p := k - 1;
    if After(all, draws, k - 1).None? { p := FirstFailure(all, draws, k - 1); }
  }

  /** The order fails exactly when some draw is out of range for what faces it. */
  lemma OrderFails(all: seq<SRV>, draws: seq<int>)
    requires |all| <= |draws|
    ensures Order(all, draws).None? <==> exists p :: 0 <= p < |all| && FailsAt(all, draws, p)
  {
    hide Next, Refill, Sorted, FailsAt;
    if Order(all, draws).None? {
      var p := FirstFailure(all, draws, |all|);
    } else if p :| 0 <= p < |all| && FailsAt(all, draws, p) {
      LastFails(all, draws, p);
      LostStays(all, draws, p + 1, |all|);
    }
  }

  /** The records at the front that share the first one's priority. */
  method Group(records: seq<SRV>) returns (end: nat)
    requires records != []
    ensures end == GroupEnd(records, 1)
  {
    end := 1;
    while end < |records| && records[end].priority == records[0].priority
      invariant 0 < end <= |records| && GroupEnd(records, end) == GroupEnd(records, 1)
    {
      end := end + 1;
    }
  }

  lemma LostAt(all: seq<SRV>, draws: seq<int>, k: nat)
    requires k < |all| <= |draws| && After(all, draws, k + 1).None?
    ensures Order(all, draws).None?
  {
    hide Next, Refill, Sorted;
    LostStays(all, draws, k + 1, |all|);
  }

  lemma NextNone(s: Stage, draw: int)
    requires s.group != [] && !InRange(Facing(s), draw)
    ensures Next(Some(Refill(s)), draw).None?
  {
  }

  lemma GroupLost(all: seq<SRV>, draws: seq<int>, done: seq<SRV>, group: seq<SRV>, records: seq<SRV>)
    requires |done| < |all| <= |draws| && group != [] && !InRange(ZeroFirst(group), draws[|done|])
    requires After(all, draws, |done|) == Some(Refill(Stage(done, group, records)))
    ensures Order(all, draws).None?
  {
    NextNone(Stage(done, group, records), draws[|done|]);
    LostAt(all, draws, |done|);
  }

  lemma GroupStep(all: seq<SRV>, draws: seq<int>, done: seq<SRV>, group: seq<SRV>, records: seq<SRV>)
    requires |done| < |all| <= |draws| && group != [] && InRange(ZeroFirst(group), draws[|done|])
    requires After(all, draws, |done|) == Some(Refill(Stage(done, group, records)))
    ensures var z := ZeroFirst(group);
            var i := Chosen(z, draws[|done|]);
            After(all, draws, |done| + 1) == Some(Refill(Stage(done + [z[i]], Without(z, i), records)))
  {
  }

  /** orderSRV: group by group, each drawn from by weight until it is empty. */
  method OrderSRV(all: seq<SRV>, draws: seq<int>) returns (ordered: Option<seq<SRV>>)
    requires |all| <= |draws|
    ensures ordered == Order(all, draws)
  {
    hide Next, Placed, Facing, ZeroFirst, Total, Chosen, GroupEnd, Sorted;
    var records, done := Sorted(all), [];
    SortedSorts(all);
    while records != []
      invariant |done| + |records| == |all|
      invariant After(all, draws, |done|) == Some(Refill(Stage(done, [], records)))
      decreases |records|
    {
      var end := Group(records);
      var group := records[..end];
      records := records[end..];
      while group != []
        invariant |done| + |group| + |records| == |all|
        invariant After(all, draws, |done|) == Some(Refill(Stage(done, group, records)))
        decreases |group|
      {
        var sorted := ZeroFirst(group);
        var draw := draws[|done|];
        if draw < 0 || draw > Total(sorted) {
          GroupLost(all, draws, done, group, records);
          return None;
        }
        var index := Choose(sorted, draw);
        GroupStep(all, draws, done, group, records);
        done, group := done + [sorted[index]], Without(sorted, index);
      }
    }
    ordered := Some(done);
  }

}
