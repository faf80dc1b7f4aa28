/** The indexed binary heap of benchmark/single-source/Prims.swift: an array of
    edges in heap order, and for every graph node the heap slot of its edge. */
module IndexedHeap {
  import opened Options

  datatype EdgeCost = EdgeCost(to: nat, cost: real, from: nat)

  function Parent(i: nat): (p: nat)
    requires i > 0
    ensures p < i
  {
    (i - 1) / 2
  }

  ghost predicate HeapOrder(heap: seq<EdgeCost>) {
    forall i {:trigger Parent(i)} :: 0 < i < |heap| ==> heap[Parent(i)].cost <= heap[i].cost
  }

  /** Heap order, except that slot `k` may be too cheap for its parent. */
  ghost predicate OrderExceptAbove(heap: seq<EdgeCost>, k: nat) {
    && (forall i {:trigger Parent(i)} :: 0 < i < |heap| && i != k ==> heap[Parent(i)].cost <= heap[i].cost)
    && BypassOrder(heap, k)
  }

  /** Heap order, except that slot `k` may be too dear for its children. */
  ghost predicate OrderExceptBelow(heap: seq<EdgeCost>, k: nat) {
    && (forall i {:trigger Parent(i)} :: 0 < i < |heap| && Parent(i) != k ==> heap[Parent(i)].cost <= heap[i].cost)
    && BypassOrder(heap, k)
  }

  /** The children of slot `k` are no cheaper than its parent. */
  ghost predicate BypassOrder(heap: seq<EdgeCost>, k: nat) {
    forall i {:trigger Parent(i)} ::
      0 < i < |heap| && Parent(i) == k && k > 0 ==> heap[Parent(k)].cost <= heap[i].cost
  }

  /** The two directions of "`index` is the inverse of the heap positions". */
  ghost predicate IndexInverse(heap: seq<EdgeCost>, index: seq<Option<nat>>) {
    && (forall i :: 0 <= i < |heap| ==> heap[i].to < |index| && index[heap[i].to] == Some(i))
    && (forall g :: 0 <= g < |index| && index[g].Some? ==>
                      index[g].value < |heap| && heap[index[g].value].to == g)
  }

  /** The root of a heap is a minimum of the whole heap. */
  lemma {:induction false} RootIsMinimum(heap: seq<EdgeCost>, k: nat)
    requires HeapOrder(heap) && k < |heap|
    ensures heap[0].cost <= heap[k].cost
    decreases k
  {
    if k > 0 {
      RootIsMinimum(heap, Parent(k));
    }
  }

  /** At most one entry per target node. */
  lemma EntriesAreUnique(heap: seq<EdgeCost>, index: seq<Option<nat>>, e: EdgeCost, f: EdgeCost)
    requires IndexInverse(heap, index) && e in heap && f in heap && e.to == f.to
    ensures e == f && multiset(heap)[e] == 1
  {
    var i :| 0 <= i < |heap| && heap[i] == e;
    assert heap == heap[..i] + [heap[i]] + heap[i + 1..];
    assert e !in heap[..i] && e !in heap[i + 1..];
    assert multiset(heap) == multiset(heap[..i]) + multiset{e} + multiset(heap[i + 1..]);
  }

  /** `after` is `before` with slots `i` and `j` exchanged. */
  ghost predicate Exchanged<T>(before: seq<T>, after: seq<T>, i: nat, j: nat)
    requires i < |before| && j < |before|
  {
    && |after| == |before| && after[i] == before[j] && after[j] == before[i]
    && (forall k :: 0 <= k < |before| && k != i && k != j ==> after[k] == before[k])
  }

  lemma ExchangePreservesEntries<T>(before: seq<T>, after: seq<T>, i: nat, j: nat)
    requires i < |before| && j < |before| && Exchanged(before, after, i, j)
    ensures multiset(after) == multiset(before)
  {
    assert after == before[i := before[j]][j := before[i]];
  }

  /** Exchanging two slots together with their index entries. */
  lemma ExchangeKeepsInverse(before: seq<EdgeCost>, index: seq<Option<nat>>, after: seq<EdgeCost>, i: nat, j: nat)
    requires IndexInverse(before, index) && i < |before| && j < |before| && i != j && Exchanged(before, after, i, j)
    ensures IndexInverse(after, index[after[i].to := index[after[j].to]][after[j].to := index[after[i].to]])
  {
  }

  /** The children of a slot. */
  lemma ChildSlots(k: nat)
    ensures forall i {:trigger Parent(i)} :: 0 < i && Parent(i) == k ==> i == 2 * k + 1 || i == 2 * k + 2
  {
  }

  /** `c` is the slot of a cheapest child of slot `k`. */
  ghost predicate CheapestChild(heap: seq<EdgeCost>, k: nat, c: nat) {
    && (c == 2 * k + 1 || c == 2 * k + 2) && c < |heap|
    && heap[c].cost <= heap[2 * k + 1].cost
    && (2 * k + 2 < |heap| ==> heap[c].cost <= heap[2 * k + 2].cost)
  }

  /** When the entry that may be too dear has no child cheaper than itself, nothing is out of order. */
  lemma SettledBelow(heap: seq<EdgeCost>, k: nat)
    requires OrderExceptBelow(heap, k)
    requires k < |heap| && 2 * k + 1 < |heap| ==>
               exists c: nat :: CheapestChild(heap, k, c) && heap[k].cost <= heap[c].cost
    ensures HeapOrder(heap)
  {
    ChildSlots(k);
  }

  /** One step up: exchanging a too cheap entry with its parent moves the defect to the parent's slot. */
  lemma StepUp(heap: seq<EdgeCost>, k: nat, h: seq<EdgeCost>)
    requires 0 < k < |heap| && OrderExceptAbove(heap, k)
    requires heap[Parent(k)].cost > heap[k].cost && Exchanged(heap, h, Parent(k), k)
    ensures OrderExceptAbove(h, Parent(k))
  {
    var p := Parent(k);
    forall i | 0 < i < |h| && i != p
      ensures h[Parent(i)].cost <= h[i].cost
    {
      if i != k && Parent(i) == p {
        assert heap[p].cost <= heap[i].cost;
      }
    }
  }

  /** One step down: exchanging a too dear entry with its cheapest child moves the defect to the child's slot. */
  lemma StepDown(heap: seq<EdgeCost>, k: nat, c: nat, h: seq<EdgeCost>)
    requires CheapestChild(heap, k, c) && OrderExceptBelow(heap, k)
    requires heap[c].cost < heap[k].cost && Exchanged(heap, h, k, c)
    ensures OrderExceptBelow(h, c)
  {
    ChildSlots(k);
    assert Parent(c) == k;
    forall i | 0 < i < |h| && Parent(i) != c
      ensures h[Parent(i)].cost <= h[i].cost
    {
      if i == k {
        assert heap[Parent(k)].cost <= heap[c].cost;
      }
    }
    forall i | 0 < i < |h| && Parent(i) == c
      ensures h[Parent(c)].cost <= h[i].cost
    {
      assert heap[Parent(i)].cost <= heap[i].cost;
    }
  }

  /** The queued entry for a node is the one its index entry names. */
  lemma OnlyEntryFor(heap: seq<EdgeCost>, index: seq<Option<nat>>, ind: nat)
    requires IndexInverse(heap, index) && ind < |heap|
    ensures heap[ind] in heap && forall e :: e in heap && e.to == heap[ind].to ==> e == heap[ind]
  {
  }

  /** A cheaper edge to the same node, written over the queued one. */
  lemma CheaperEntry(heap: seq<EdgeCost>, index: seq<Option<nat>>, ind: nat, n: EdgeCost)
    requires HeapOrder(heap) && IndexInverse(heap, index)
    requires ind < |heap| && heap[ind].to == n.to && n.cost < heap[ind].cost
    ensures heap[ind].(cost := n.cost, from := n.from) == n
    ensures OrderExceptAbove(heap[ind := n], ind) && IndexInverse(heap[ind := n], index)
    ensures multiset(heap[ind := n]) == multiset(heap) - multiset{heap[ind]} + multiset{n}
  {
  }

  lemma LastApart(s: seq<EdgeCost>)
    requires s != []
    ensures multiset(s[..|s| - 1]) == multiset(s) - multiset{s[|s| - 1]}
  {
    assert s == s[..|s| - 1] + [s[|s| - 1]];
  }

  /** Dropping the last slot, once the root's entry has been exchanged into it. */
  lemma DropLast(heap: seq<EdgeCost>, moved: seq<EdgeCost>, index: seq<Option<nat>>)
    requires heap != [] && HeapOrder(heap) && multiset(moved) == multiset(heap)
    requires Exchanged(heap, moved, 0, |heap| - 1) && IndexInverse(moved, index)
    ensures multiset(moved[..|heap| - 1]) == multiset(heap) - multiset{heap[0]}
    ensures OrderExceptBelow(moved[..|heap| - 1], 0)
    ensures IndexInverse(moved[..|heap| - 1], index[heap[0].to := None])
  {
    LastApart(moved);
  }

  lemma RootIsMinimumOfAll(heap: seq<EdgeCost>)
    requires HeapOrder(heap)
    ensures forall e :: e in heap ==> heap[0].cost <= e.cost
  {
    forall k | 0 <= k < |heap|
      ensures heap[0].cost <= heap[k].cost
    {
      RootIsMinimum(heap, k);
    }
  }

  class PriorityQueue {
    var heap: seq<EdgeCost>
    var graphIndexToHeapIndexMap: seq<Option<nat>>

    ghost predicate Valid()
      reads this
    {
      HeapOrder(heap) && IndexInverse(heap, graphIndexToHeapIndexMap)
    }

    constructor (num: nat)
      ensures Valid() && heap == [] && |graphIndexToHeapIndexMap| == num
    {
      heap := [];
      graphIndexToHeapIndexMap := seq(num, _ => None);
    }

    predicate IsEmpty()
      reads this
    {
      heap == []
    }

    /** Adds an edge to a node that has none in the queue yet. */
    method Insert(n: EdgeCost)
      requires Valid()
      requires n.to < |graphIndexToHeapIndexMap| && graphIndexToHeapIndexMap[n.to] == None
      modifies this
      ensures Valid() && |graphIndexToHeapIndexMap| == old(|graphIndexToHeapIndexMap|)
      ensures multiset(heap) == old(multiset(heap)) + multiset{n}
    {
      var ind := |heap|;
      heap := heap + [n];
      graphIndexToHeapIndexMap := graphIndexToHeapIndexMap[n.to := Some(|heap| - 1)];
      BubbleUp(ind);
    }

    /** Keeps, for the target node, the cheaper of the queued edge and `n`. */
    method InsertOrUpdate(n: EdgeCost)
      requires Valid() && n.to < |graphIndexToHeapIndexMap|
      modifies this
      ensures Valid() && |graphIndexToHeapIndexMap| == old(|graphIndexToHeapIndexMap|)
      ensures (forall e :: e in old(heap) ==> e.to != n.to) ==>
                multiset(heap) == old(multiset(heap)) + multiset{n}
      ensures forall e :: e in old(heap) && e.to == n.to ==>
                multiset(heap) == if e.cost <= n.cost then old(multiset(heap))
                                  else old(multiset(heap)) - multiset{e} + multiset{n}
    {
      var id := n.to;
      var c := n.cost;
      var slot := graphIndexToHeapIndexMap[id];
      if slot.Some? {
        var ind := slot.value;
        OnlyEntryFor(heap, graphIndexToHeapIndexMap, ind);
        if heap[ind].cost <= c {
          return;
        }
        CheaperEntry(heap, graphIndexToHeapIndexMap, ind, n);
        heap := heap[ind := heap[ind].(cost := c, from := n.from)];
        BubbleUp(ind);
      } else {
        Insert(n);
      }
    }

    /** Moves the entry at `start` up until its parent is no dearer. */
    method BubbleUp(start: nat)
      requires start < |heap| && OrderExceptAbove(heap, start)
      requires IndexInverse(heap, graphIndexToHeapIndexMap)
      modifies this
      ensures Valid() && |graphIndexToHeapIndexMap| == old(|graphIndexToHeapIndexMap|)
      ensures multiset(heap) == old(multiset(heap))
    {
      var ind := start;
      var c := heap[ind].cost;
      while ind != 0
        invariant ind < |heap| && heap[ind].cost == c
        invariant OrderExceptAbove(heap, ind)
        invariant IndexInverse(heap, graphIndexToHeapIndexMap)
        invariant |graphIndexToHeapIndexMap| == old(|graphIndexToHeapIndexMap|)
        invariant multiset(heap) == old(multiset(heap))
      {
        var p := Parent(ind);
        if heap[p].cost > c {
          ghost var before := heap;
          Swap(p, ind);
          StepUp(before, ind, heap);
          ind := p;
        } else {
          break;
        }
      }
    }

    /** Removes and returns an entry of minimum cost, if there is one. */
    method Pop() returns (r: Option<EdgeCost>)
      requires Valid()
      modifies this
      ensures Valid() && |graphIndexToHeapIndexMap| == old(|graphIndexToHeapIndexMap|)
      ensures r == None <==> old(heap) == []
      ensures r == None ==> heap == []
      ensures r.Some? ==> r.value in old(heap) && multiset(heap) == old(multiset(heap)) - multiset{r.value}
      ensures r.Some? ==> forall e :: e in old(heap) ==> r.value.cost <= e.cost
    {
      if heap == [] {
        return None;
      }
      Swap(0, |heap| - 1);
      DropLast(old(heap), heap, graphIndexToHeapIndexMap);
      var e := heap[|heap| - 1];
      heap := heap[..|heap| - 1];
      graphIndexToHeapIndexMap := graphIndexToHeapIndexMap[e.to := None];
      BubbleDown(0);
      RootIsMinimumOfAll(old(heap));
      r := Some(e);
    }

    /** Moves the entry at `start` down until no child is cheaper. */
    method BubbleDown(start: nat)
      requires OrderExceptBelow(heap, start)
      requires IndexInverse(heap, graphIndexToHeapIndexMap)
      modifies this
      ensures Valid() && |graphIndexToHeapIndexMap| == old(|graphIndexToHeapIndexMap|)
      ensures multiset(heap) == old(multiset(heap))
    {
      var ind := start;
      var n := |heap|;
      while ind < n
        invariant n == |heap|
        invariant OrderExceptBelow(heap, ind)
        invariant IndexInverse(heap, graphIndexToHeapIndexMap)
        invariant |graphIndexToHeapIndexMap| == old(|graphIndexToHeapIndexMap|)
        invariant multiset(heap) == old(multiset(heap))
        decreases n - ind
      {
        var l := ind * 2 + 1;
        var r := (ind + 1) * 2;
        if l >= n {
          SettledBelow(heap, ind);
          break;
        }
        var min: nat;
        if r < n && heap[r].cost < heap[l].cost {
          min := r;
        } else {
          min := l;
        }
        assert CheapestChild(heap, ind, min);
        if heap[ind].cost <= heap[min].cost {
          SettledBelow(heap, ind);
          break;
        }
        ghost var before := heap;
        Swap(ind, min);
        StepDown(before, ind, min, heap);
        ind := min;
      }
    }

    /** Exchanges two heap slots and their index entries. */
    method Swap(i: nat, j: nat)
      requires i < |heap| && j < |heap|
      requires IndexInverse(heap, graphIndexToHeapIndexMap)
      modifies this
      ensures Exchanged(old(heap), heap, i, j) && multiset(heap) == old(multiset(heap))
      ensures IndexInverse(heap, graphIndexToHeapIndexMap)
      ensures |graphIndexToHeapIndexMap| == old(|graphIndexToHeapIndexMap|)
    {
      if i == j {
        return;
      }
      heap := heap[i := heap[j]][j := heap[i]];
      ExchangePreservesEntries(old(heap), heap, i, j);
      ExchangeKeepsInverse(old(heap), graphIndexToHeapIndexMap, heap, i, j);
      var fst, snd := heap[i].to, heap[j].to;
      graphIndexToHeapIndexMap :=
        graphIndexToHeapIndexMap[fst := graphIndexToHeapIndexMap[snd]][snd := graphIndexToHeapIndexMap[fst]];
    }
  }
}
