/** The heap of stream buffers, longest first, with the map that finds a
    stream's place in it (diam/network_sctp.go, Go's container/heap). */
module Streams {
  import opened Octets
  import opened Demux

  datatype Cell = Cell(stream: nat, data: Bytes)

  function Parent(k: nat): nat
    requires k > 0
  {
    (k - 1) / 2
  }

  function Size(h: seq<Cell>, k: nat): nat
    requires k < |h|
  {
    |h[k].data|
  }

  predicate Below(h: seq<Cell>, k: nat)
    requires k < |h|
  {
    k > 0 ==> Size(h, k) <= Size(h, Parent(k))
  }

  ghost predicate Heap(h: seq<Cell>) {
    forall k :: 0 <= k < |h| ==> Below(h, k)
  }

  predicate ChildOf(k: nat, i: nat) {
    k > 0 && Parent(k) == i
  }

  /** A child of `i` does not exceed the parent of `i`. */
  predicate Bridged(h: seq<Cell>, i: nat, k: nat)
    requires i < |h| && k < |h|
  {
    ChildOf(k, i) && i > 0 ==> Size(h, k) <= Size(h, Parent(i))
  }

  /** In order, but for the place `i` and its children. */
  ghost predicate LooseAt(h: seq<Cell>, i: nat)
    requires i < |h|
  {
    && (forall k :: 0 <= k < |h| && k != i && !ChildOf(k, i) ==> Below(h, k))
    && (forall k :: 0 <= k < |h| ==> Bridged(h, i, k))
  }

  /** In order, but for the place `i` against its parent. */
  ghost predicate HighAt(h: seq<Cell>, i: nat)
    requires i < |h|
  {
    && (forall k :: 0 <= k < |h| && k != i ==> Below(h, k))
    && (forall k :: 0 <= k < |h| ==> Bridged(h, i, k))
  }

  function Swapped(h: seq<Cell>, i: nat, j: nat): seq<Cell>
    requires i < |h| && j < |h|
  {
    h[i := h[j]][j := h[i]]
  }

  /** The root of a heap is a longest buffer. */
  lemma {:induction false} RootLongest(h: seq<Cell>, k: nat)
    requires Heap(h) && k < |h|
    ensures Size(h, k) <= Size(h, 0)
    decreases k
  {
    if k > 0 {
      assert Below(h, k);
      RootLongest(h, Parent(k));
    }
  }

  lemma Changed(h: seq<Cell>, i: nat, c: Cell)
    requires Heap(h) && i < |h|
    ensures LooseAt(h[i := c], i)
  {
    var n := h[i := c];
    forall k | 0 <= k < |n| && k != i && !ChildOf(k, i) ensures Below(n, k) {
      assert Below(h, k);
    }
    forall k | 0 <= k < |n| ensures Bridged(n, i, k) {
      assert Below(h, i) && Below(h, k);
    }
  }

  lemma Pushed(h: seq<Cell>, c: Cell)
    requires Heap(h)
    ensures HighAt(h + [c], |h|)
  {
    var n := h + [c];
    forall k | 0 <= k < |n| && k != |h| ensures Below(n, k) {
      assert Below(h, k);
    }
  }

  /** Sifting down one level: the larger child comes up. */
  lemma DownStep(h: seq<Cell>, i: nat, j: nat)
    requires i < |h| && LooseAt(h, i) && j < |h| && ChildOf(j, i) && Size(h, i) < Size(h, j)
    requires forall k :: 0 <= k < |h| && ChildOf(k, i) ==> Size(h, k) <= Size(h, j)
    requires i > 0 ==> Size(h, j) <= Size(h, Parent(i))
    ensures LooseAt(Swapped(h, i, j), j) && Below(Swapped(h, i, j), j)
  {
    var n := Swapped(h, i, j);
    forall k | 0 <= k < |n| && k != j && !ChildOf(k, j) ensures Below(n, k) {
      if k != i && !ChildOf(k, i) { assert Below(h, k); }
    }
    forall k | 0 <= k < |n| ensures Bridged(n, j, k) {
      if ChildOf(k, j) { assert Below(h, k); }
    }
  }

  /** No child is larger: only the parent may be out of order. */
  lemma DownEnd(h: seq<Cell>, i: nat)
    requires i < |h| && LooseAt(h, i) && forall k :: 0 <= k < |h| && ChildOf(k, i) ==> Size(h, k) <= Size(h, i)
    ensures HighAt(h, i) && (Below(h, i) ==> Heap(h))
  {
    forall k | 0 <= k < |h| && k != i ensures Below(h, k) {
      if ChildOf(k, i) { assert Size(h, k) <= Size(h, i); }
    }
  }

  /** Sifting up one level: the parent, smaller, goes down. */
  lemma UpStep(h: seq<Cell>, j: nat)
    requires j < |h| && j > 0 && HighAt(h, j) && Size(h, Parent(j)) < Size(h, j)
    ensures HighAt(Swapped(h, Parent(j), j), Parent(j))
  {
    var p := Parent(j);
    var n := Swapped(h, p, j);
    assert Below(h, p);
    forall k | 0 <= k < |n| && k != p ensures Below(n, k) {
      assert k != j ==> Below(h, k);
      assert Bridged(h, j, k);
    }
    forall k | 0 <= k < |n| ensures Bridged(n, p, k) {
      assert k != j ==> Below(h, k);
    }
  }

  // ---- Map and heap agree ----------------------------------------------------------------

  ghost predicate Agree(h: seq<Cell>, index: map<nat, nat>) {
    && (forall k :: 0 <= k < |h| ==> h[k].stream in index && index[h[k].stream] == k)
    && (forall s :: s in index ==> index[s] < |h| && h[index[s]].stream == s)
  }

  ghost function Contents(h: seq<Cell>, index: map<nat, nat>): map<nat, Bytes>
    requires Agree(h, index)
  {
    map s | s in index :: h[index[s]].data
  }

  /** The root holds a longest buffer of all streams. */
  lemma Longest(h: seq<Cell>, index: map<nat, nat>)
    requires Agree(h, index) && Heap(h) && h != []
    ensures forall s :: |At(Contents(h, index), s)| <= |h[0].data|
    ensures At(Contents(h, index), h[0].stream) == h[0].data
    ensures h[0].data == [] <==> forall s :: At(Contents(h, index), s) == []
  {
    forall s ensures |At(Contents(h, index), s)| <= |h[0].data| {
      if s in index { RootLongest(h, index[s]); }
    }
    if h[0].data == [] {
      forall s ensures At(Contents(h, index), s) == [] {
        assert |At(Contents(h, index), s)| <= |h[0].data|;
      }
    }
  }

  lemma SwapAgrees(h: seq<Cell>, index: map<nat, nat>, i: nat, j: nat)
    requires Agree(h, index) && i < |h| && j < |h|
    ensures var next := index[h[j].stream := i][h[i].stream := j];
            Agree(Swapped(h, i, j), next) && Contents(Swapped(h, i, j), next) == Contents(h, index)
  {
  }

  lemma ChangeAgrees(h: seq<Cell>, index: map<nat, nat>, i: nat, data: Bytes)
    requires Agree(h, index) && i < |h|
    ensures Agree(h[i := Cell(h[i].stream, data)], index)
    ensures Contents(h[i := Cell(h[i].stream, data)], index) == Contents(h, index)[h[i].stream := data]
  {
  }

  lemma PushAgrees(h: seq<Cell>, index: map<nat, nat>, c: Cell)
    requires Agree(h, index) && c.stream !in index
    ensures Agree(h + [c], index[c.stream := |h|])
    ensures Contents(h + [c], index[c.stream := |h|]) == Contents(h, index)[c.stream := c.data]
  {
  }

  class Streams {
    var heap: seq<Cell>
    var index: map<nat, nat>

    ghost predicate Valid()
      reads this
    {
      Agree(heap, index) && Heap(heap)
    }

    ghost function Buffered(): map<nat, Bytes>
      requires Agree(heap, index)
      reads this
    {
      Contents(heap, index)
    }

    constructor ()
      ensures Valid() && Buffered() == map[]
    {
      heap, index := [], map[];
    }

    method Swap(i: nat, j: nat)
      requires Agree(heap, index) && i < |heap| && j < |heap|
      modifies this
      ensures heap == Swapped(old(heap), i, j) && Agree(heap, index) && Buffered() == old(Buffered())
    {
      SwapAgrees(heap, index, i, j);
      index := index[heap[j].stream := i][heap[i].stream := j];
      heap := heap[i := heap[j]][j := heap[i]];
    }

    method Down(start: nat) returns (moved: bool)
      requires Agree(heap, index) && start < |heap| && LooseAt(heap, start)
      modifies this
      ensures Agree(heap, index) && Buffered() == old(Buffered()) && |heap| == |old(heap)|
      ensures if moved then Heap(heap) else HighAt(heap, start)
    {
      var i := start;
      while 2 * i + 1 < |heap|
        invariant i < |heap| == |old(heap)| && start <= i && LooseAt(heap, i) && (i > start ==> Below(heap, i))
        invariant Agree(heap, index) && Buffered() == old(Buffered())
        decreases |heap| - i
      {
        var j := 2 * i + 1;
        if j + 1 < |heap| && Size(heap, j + 1) > Size(heap, j) { j := j + 1; }
        Children(heap, i, j);
        if Size(heap, j) <= Size(heap, i) { break; }
        assert Bridged(heap, i, j);
        DownStep(heap, i, j);
        Swap(i, j);
        i := j;
      }
      if 2 * i + 1 >= |heap| { Leaf(heap, i); }
      DownEnd(heap, i);
      moved := i > start;
    }

    method Up(start: nat)
      requires Agree(heap, index) && start < |heap| && HighAt(heap, start)
      modifies this
      ensures Valid() && Buffered() == old(Buffered())
    {
      var j: nat := start;
      while j > 0 && Size(heap, j) > Size(heap, (j - 1) / 2)
        invariant j < |heap| && HighAt(heap, j) && Agree(heap, index) && Buffered() == old(Buffered())
      {
        UpStep(heap, j);
        Swap((j - 1) / 2, j);
        j := (j - 1) / 2;
      }
      assert Below(heap, j);
    }

    /** heap.Fix. */
    method Fix(i: nat)
      requires Agree(heap, index) && i < |heap| && LooseAt(heap, i)
      modifies this
      ensures Valid() && Buffered() == old(Buffered())
    {
      var moved := Down(i);
      if !moved { Up(i); }
    }

    /** readBufferedLocked without the fence: the stream's octets, or those of a
        longest buffer; none exactly when the reader finds nothing. */
    method Read(target: Option<nat>, max: nat) returns (stream: Option<nat>, octets: Bytes)
      requires Valid()
      modifies this
      ensures Valid()
      ensures stream.None? <==> Dry(old(Buffered()), target)
      ensures stream.None? ==> Buffered() == old(Buffered())
      ensures stream.Some? ==>
                var was := At(old(Buffered()), stream.value);
                && was != [] && octets == was[..if max < |was| then max else |was|]
                && Buffered() == old(Buffered())[stream.value := was[|octets|..]]
                && (target.Some? ==> stream == target)
                && (target.None? ==> forall s :: |At(old(Buffered()), s)| <= |was|)
    {
      octets := [];
      if target.None? && heap == [] { return None, []; }
      if target.Some? && target.value !in index { return None, []; }
      var i := if target.Some? then index[target.value] else 0;
      if target.None? { Longest(heap, index); }
      if heap[i].data == [] { return None, []; }
      var data := heap[i].data;
      stream := Some(heap[i].stream);
      octets := data[..if max < |data| then max else |data|];
      Changed(heap, i, Cell(heap[i].stream, data[|octets|..]));
      ChangeAgrees(heap, index, i, data[|octets|..]);
      heap := heap[i := Cell(heap[i].stream, data[|octets|..])];
      Fix(i);
    }

    /** bufferStreamData. */
    method Buffer(octets: Bytes, s: nat)
      requires Valid()
      modifies this
      ensures Valid() && Buffered() == Append(old(Buffered()), s, octets)
    {
      if s in index {
        var i := index[s];
        Changed(heap, i, Cell(s, heap[i].data + octets));
        ChangeAgrees(heap, index, i, heap[i].data + octets);
        heap := heap[i := Cell(s, heap[i].data + octets)];
        Fix(i);
      } else {
        Pushed(heap, Cell(s, octets));
        PushAgrees(heap, index, Cell(s, octets));
        assert At(Buffered(), s) + octets == octets;
        heap, index := heap + [Cell(s, octets)], index[s := |heap|];
        Up(|heap| - 1);
      }
    }
  }

  lemma Children(h: seq<Cell>, i: nat, j: nat)
    requires i < |h| && j < |h| && (j == 2 * i + 1 || j == 2 * i + 2)
    requires j == 2 * i + 1 && j + 1 < |h| ==> Size(h, j + 1) <= Size(h, j)
    requires j == 2 * i + 2 ==> Size(h, j - 1) <= Size(h, j)
    ensures ChildOf(j, i) && forall k :: 0 <= k < |h| && ChildOf(k, i) ==> Size(h, k) <= Size(h, j)
  {
  }

  lemma Leaf(h: seq<Cell>, i: nat)
    requires 2 * i + 1 >= |h|
    ensures forall k :: 0 <= k < |h| ==> !ChildOf(k, i)
  {
  }
}
