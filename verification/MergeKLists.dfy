/** Merging sorted linked lists by relinking their own nodes, smallest front node first. */
module MergeKLists {
  import opened Containers

  class ListNode {
    const val: int
    var next: ListNode?

    constructor (val: int, next: ListNode?)
      ensures this.val == val && this.next == next
    {
      this.val, this.next := val, next;
    }
  }

  datatype HeapElement = HeapElement(node: ListNode, index: int)

  function First(s: seq<ListNode>): ListNode? { if s == [] then null else s[0] }

  /** `s` is linked in order and null-terminated. */
  ghost predicate Chain(s: seq<ListNode>)
    reads s`next
  {
    forall i :: 0 <= i < |s| ==> s[i].next == if i + 1 < |s| then s[i + 1] else null
  }

  lemma ChainAt(s: seq<ListNode>, i: nat)
    requires Chain(s) && i < |s|
    ensures s[i].next == if i + 1 < |s| then s[i + 1] else null
  {
  }

  ghost predicate Linked(s: seq<ListNode>)
    reads s`next
  {
    forall i :: 0 <= i < |s| - 1 ==> s[i].next == s[i + 1]
  }

  ghost predicate Sorted(s: seq<ListNode>) {
    forall i, j :: 0 <= i < j < |s| ==> s[i].val <= s[j].val
  }

  /** All nodes of some chains, with multiplicity. */
  ghost function Bag(chains: seq<seq<ListNode>>): multiset<ListNode> {
    if chains == [] then multiset{} else Bag(chains[..|chains| - 1]) + multiset(chains[|chains| - 1])
  }

  /** No node occurs twice: the lists are disjoint and acyclic. */
  ghost predicate NoDuplicates(all: multiset<ListNode>) {
    forall x :: x in all ==> all[x] == 1
  }

  lemma {:induction false} BagUpdate(chains: seq<seq<ListNode>>, i: nat, s: seq<ListNode>)
    requires i < |chains|
    ensures Bag(chains[i := s]) + multiset(chains[i]) == Bag(chains) + multiset(s)
    decreases |chains|
  {
    var n := |chains| - 1;
    var chains' := chains[i := s];
    if i == n {
      assert chains'[..n] == chains[..n];
    } else {
      assert chains'[..n] == chains[..n][i := s] && chains[..n][i] == chains[i];
      BagUpdate(chains[..n], i, s);
      var a, b := Bag(chains'[..n]), Bag(chains[..n]);
      assert a + multiset(chains[i]) == b + multiset(s);
      assert Bag(chains') == a + multiset(chains[n]) && Bag(chains) == b + multiset(chains[n]);
      assert Bag(chains') + multiset(chains[i]) == (a + multiset(chains[i])) + multiset(chains[n]);
    }
  }

  lemma {:induction false} BagHolds(chains: seq<seq<ListNode>>, i: nat)
    requires i < |chains|
    ensures multiset(chains[i]) <= Bag(chains)
    decreases |chains|
  {
    var n := |chains| - 1;
    if i < n {
      BagHolds(chains[..n], i);
    }
  }

  lemma {:induction false} BagEmpty(chains: seq<seq<ListNode>>)
    requires forall i :: 0 <= i < |chains| ==> chains[i] == []
    ensures Bag(chains) == multiset{}
    decreases |chains|
  {
    if chains != [] { BagEmpty(chains[..|chains| - 1]); }
  }

  lemma NoRepeat(s: seq<ListNode>, all: multiset<ListNode>)
    requires multiset(s) <= all && NoDuplicates(all)
    ensures forall i, j :: 0 <= i < j < |s| ==> s[i] != s[j]
  {
    forall i, j | 0 <= i < j < |s| ensures s[i] != s[j] {
      assert s == s[..j] + [s[j]] + s[j + 1..];
      assert s[j] in multiset(s) && multiset(s[..j])[s[j]] + 1 <= multiset(s)[s[j]] <= all[s[j]] == 1;
      assert s[i] in s[..j];
    }
  }

  /** The node to be relinked is none of the others. */
  lemma Separate(done: seq<ListNode>, pending: seq<seq<ListNode>>, all: multiset<ListNode>, dummy: ListNode)
    requires multiset(done) + Bag(pending) == all && NoDuplicates(all) && dummy !in all
    ensures var path := [dummy] + done;
      && (forall k :: 0 <= k < |path| - 1 ==> path[k] != path[|path| - 1])
      && (forall i :: 0 <= i < |pending| ==> path[|path| - 1] !in pending[i])
  {
    var path := [dummy] + done;
    var last := path[|path| - 1];
    NoRepeat(done, all);
    assert forall k :: 0 <= k < |done| ==> done[k] in multiset(done);
    forall i | 0 <= i < |pending| ensures last !in pending[i] {
      BagHolds(pending, i);
      assert multiset(done)[last] + multiset(pending[i])[last] <= all[last];
      assert done != [] ==> last in multiset(done);
      assert multiset(pending[i])[last] == 0;
    }
  }

  // ----- the heap and the lists -----

  /** One heap element for each list that is not used up, its front node; the list variable is already one further. */
  ghost predicate Fronts(pending: seq<seq<ListNode>>, lists: seq<ListNode?>, heap: set<HeapElement>) {
    && |lists| == |pending|
    && (forall i :: 0 <= i < |pending| ==> lists[i] == if |pending[i]| > 1 then pending[i][1] else null)
    && (forall i :: 0 <= i < |pending| && pending[i] != [] ==> HeapElement(pending[i][0], i) in heap)
    && (forall e :: e in heap ==> 0 <= e.index < |pending| && pending[e.index] != [] && e.node == pending[e.index][0])
  }

  ghost function NodesOf(chains: seq<seq<ListNode>>): set<ListNode> {
    set i, a | 0 <= i < |chains| && 0 <= a < |chains[i]| :: chains[i][a]
  }

  /** What is merged so far is sorted and not above anything that is still to come. */
  ghost predicate Ordered(done: seq<ListNode>, pending: seq<seq<ListNode>>) {
    && Sorted(done)
    && (forall i :: 0 <= i < |pending| ==> Sorted(pending[i]))
    && (forall k, i, a :: 0 <= k < |done| && 0 <= i < |pending| && 0 <= a < |pending[i]| ==>
        done[k].val <= pending[i][a].val)
  }

  lemma HeapBag(heap: set<HeapElement>)
    requires heap != {}
    ensures |multiset(heap)| > 0 && forall e :: e in multiset(heap) <==> e in heap
  {
    var e :| e in heap;
    assert e in multiset(heap);
  }

  const BY_VALUE: HeapElement -> int := (e: HeapElement) => e.node.val

  lemma TakeOrdered(done: seq<ListNode>, pending: seq<seq<ListNode>>, lists: seq<ListNode?>, heap: set<HeapElement>,
                    e: HeapElement)
    requires Ordered(done, pending) && Fronts(pending, lists, heap)
    requires e in heap && forall f :: f in heap ==> e.node.val <= f.node.val
    ensures Ordered(done + [e.node], pending[e.index := pending[e.index][1..]])
  {
  }

  lemma TakeFronts(pending: seq<seq<ListNode>>, lists: seq<ListNode?>, heap: set<HeapElement>, e: HeapElement,
                   lists': seq<ListNode?>, heap': set<HeapElement>)
    requires Fronts(pending, lists, heap) && e in heap
    requires lists[e.index] == null ==> lists' == lists && heap' == heap - {e}
    requires lists[e.index] != null ==> Chain(pending[e.index]) && lists' == lists[e.index := lists[e.index].next]
                                        && heap' == heap - {e} + {HeapElement(lists[e.index], e.index)}
    ensures Fronts(pending[e.index := pending[e.index][1..]], lists', heap')
    ensures |heap'| == if lists[e.index] == null then |heap| - 1 else |heap|
    ensures lists[e.index] == null <==> pending[e.index][1..] == []
  {
    var tail := pending[e.index][1..];
    assert forall a :: 0 <= a < |tail| ==> tail[a] == pending[e.index][a + 1];
    if lists[e.index] != null {
      var f := HeapElement(lists[e.index], e.index);
      assert f !in heap - {e};
      var q := pending[e.index];
      assert |q| > 1 && lists[e.index] == q[1] && Chain(q);
      ChainAt(q, 1);
    }
    var pending' := pending[e.index := tail];
    forall i | 0 <= i < |pending'| && pending'[i] != [] ensures HeapElement(pending'[i][0], i) in heap' {
      if i != e.index { assert HeapElement(pending[i][0], i) in heap; }
    }
  }

  // ----- the merge -----

  /** The given lists: sorted, null-terminated, and sharing no node. */
  ghost predicate GoodLists(heads: seq<ListNode?>, chains: seq<seq<ListNode>>)
    reads NodesOf(chains)
  {
    && |heads| == |chains| && NoDuplicates(Bag(chains))
    && forall i :: 0 <= i < |chains| ==> heads[i] == First(chains[i]) && Chain(chains[i]) && Sorted(chains[i])
  }

  /**
   `done` hangs from the dummy node, `pending` is what each list still has to give, and together they are
   all nodes.
   */
  ghost predicate Linkage(all: multiset<ListNode>, dummy: ListNode, done: seq<ListNode>, pending: seq<seq<ListNode>>)
    reads dummy, done, NodesOf(pending)
  {
    && NoDuplicates(all) && dummy !in all && multiset(done) + Bag(pending) == all
    && Linked([dummy] + done) && (forall i :: 0 <= i < |pending| ==> Chain(pending[i]))
    && Ordered(done, pending)
  }

  /** The merging loop, with the heap and the list variables. */
  ghost predicate Merging(all: multiset<ListNode>, dummy: ListNode, done: seq<ListNode>, pending: seq<seq<ListNode>>,
                          lists: seq<ListNode?>, heap: set<HeapElement>, finished: int)
    reads dummy, done, NodesOf(pending)
  {
    && Linkage(all, dummy, done, pending)
    && Fronts(pending, lists, heap) && |heap| + finished == |lists|
    && (heap == {} ==> ([dummy] + done)[|done|].next == null)
  }

  lemma AllDone(all: multiset<ListNode>, dummy: ListNode, done: seq<ListNode>, pending: seq<seq<ListNode>>,
                lists: seq<ListNode?>, heap: set<HeapElement>, finished: int)
    requires Merging(all, dummy, done, pending, lists, heap, finished) && heap == {}
    ensures multiset(done) == all && Chain(done) && Sorted(done) && dummy.next == First(done)
  {
    assert forall i :: 0 <= i < |pending| ==> pending[i] == [];
    BagEmpty(pending);
    var path := [dummy] + done;
    forall i | 0 <= i < |done| ensures done[i].next == if i + 1 < |done| then done[i + 1] else null {
      assert path[i + 1] == done[i];
      if i + 1 < |done| { assert path[i + 1].next == path[i + 2]; }
    }
    if done != [] { assert path[0].next == path[1]; }
  }

  /** The first pass: each non-empty list gives its front node to the heap. */
  method LoadHeap(lists: array<ListNode?>, ghost chains: seq<seq<ListNode>>)
    returns (heap: set<HeapElement>, finished: int)
    requires GoodLists(lists[..], chains)
    modifies lists
    ensures Fronts(chains, lists[..], heap) && |heap| + finished == lists.Length
  {
    heap, finished := {}, 0;
    ghost var heads := lists[..];
    for i := 0 to lists.Length
      invariant |heap| + finished == i
      invariant forall j :: i <= j < lists.Length ==> lists[j] == First(chains[j])
      invariant forall j :: 0 <= j < i ==> lists[j] == if |chains[j]| > 1 then chains[j][1] else null
      invariant forall j :: 0 <= j < i && chains[j] != [] ==> HeapElement(chains[j][0], j) in heap
      invariant forall e :: e in heap ==> 0 <= e.index < i && chains[e.index] != [] && e.node == chains[e.index][0]
      invariant GoodLists(heads, chains)
    {
      if lists[i] == null {
        finished := finished + 1;
      } else {
        ChainAt(chains[i], 0);
        heap := heap + {HeapElement(lists[i], i)};
        lists[i] := lists[i].next;
      }
    }
  }

  /** Links `node` behind the last node of `path`, which is on no pending list. */
  method LinkBehind(curr: ListNode, node: ListNode, ghost path: seq<ListNode>, ghost pending: seq<seq<ListNode>>)
    requires path != [] && curr == path[|path| - 1] && Linked(path)
    requires forall k :: 0 <= k < |path| - 1 ==> path[k] != curr
    requires forall j :: 0 <= j < |pending| ==> curr !in pending[j] && Chain(pending[j])
    modifies curr`next
    ensures Linked(path + [node])
    ensures forall j :: 0 <= j < |pending| ==> Chain(pending[j])
  {
    curr.next := node;
    assert forall j :: 0 <= j < |pending| ==> old(Chain(pending[j]));
    forall j | 0 <= j < |pending| ensures Chain(pending[j]) {
      forall i | 0 <= i < |pending[j]|
        ensures pending[j][i].next == if i + 1 < |pending[j]| then pending[j][i + 1] else null
      {
        assert pending[j][i] in pending[j];
      }
    }
  }

  /** Links the smallest front node behind the last one. */
  method LinkNext(lists: seq<ListNode?>, heap: set<HeapElement>, curr: ListNode, e: HeapElement,
                  ghost all: multiset<ListNode>, ghost dummy: ListNode, ghost done: seq<ListNode>,
                  ghost pending: seq<seq<ListNode>>)
    requires Linkage(all, dummy, done, pending) && Fronts(pending, lists, heap) && curr == ([dummy] + done)[|done|]
    requires e in heap && forall f :: f in heap ==> e.node.val <= f.node.val
    modifies curr`next
    ensures 0 <= e.index < |pending| && pending[e.index] != [] && Chain(pending[e.index])
    ensures Linkage(all, dummy, done + [e.node], pending[e.index := pending[e.index][1..]])
    ensures |Bag(pending[e.index := pending[e.index][1..]])| < |Bag(pending)|
    ensures e.node.next == if |pending[e.index]| > 1 then pending[e.index][1] else null
  {
    hide Chain, Linked, Fronts, Ordered, NoDuplicates, Bag;
    HeapIndex(pending, lists, heap, e);
    ghost var i := e.index;
    Separate(done, pending, all, dummy);
    TakeBag(all, done, pending, i);
    LinkBehind(curr, e.node, [dummy] + done, pending);
    TakeOrdered(done, pending, lists, heap, e);
    assert [dummy] + done + [e.node] == [dummy] + (done + [e.node]);
    ChainAt(pending[i], 0);
    ChainTail(pending[i]);
  }

  /** One turn of the merging loop: the smallest front node is linked behind the last one. */
  method TakeNode(lists: array<ListNode?>, heap: set<HeapElement>, finished: int, curr: ListNode,
                  ghost all: multiset<ListNode>, ghost dummy: ListNode, ghost done: seq<ListNode>,
                  ghost pending: seq<seq<ListNode>>)
    returns (heap': set<HeapElement>, finished': int, curr': ListNode, ghost done': seq<ListNode>,
        ghost pending': seq<seq<ListNode>>)
    requires Merging(all, dummy, done, pending, lists[..], heap, finished) && heap != {}
             && curr == ([dummy] + done)[|done|]
    modifies lists, curr`next
    ensures Merging(all, dummy, done', pending', lists[..], heap', finished') && curr' == ([dummy] + done')[|done'|]
    ensures |Bag(pending')| < |Bag(pending)| && |done'| == |done| + 1
  {
    hide Chain, Linked, Ordered, NoDuplicates, Fronts, Bag, NodesOf;
    HeapBag(heap);
    var e := Top(multiset(heap), BY_VALUE);
    HeapIndex(pending, lists[..], heap, e);
    ghost var i, before := e.index, lists[..];
    done', pending' := done + [e.node], pending[i := pending[i][1..]];
    LinkNext(lists[..], heap, curr, e, all, dummy, done, pending);
    curr' := e.node;
    heap', finished' := Refill(lists, heap, finished, e, all, dummy, done', pending');
    TakeFronts(pending, before, heap, e, lists[..], heap');
    assert ([dummy] + done')[|done'|] == curr';
  }

  /** The popped element's list gives its next node to the heap, or is finished. */
  method Refill(lists: array<ListNode?>, heap: set<HeapElement>, finished: int, e: HeapElement,
                ghost all: multiset<ListNode>, ghost dummy: ListNode, ghost done: seq<ListNode>,
                ghost pending: seq<seq<ListNode>>)
    returns (heap': set<HeapElement>, finished': int)
    requires 0 <= e.index < lists.Length && Linkage(all, dummy, done, pending)
    modifies lists
    ensures Linkage(all, dummy, done, pending)
    ensures var node := old(lists[e.index]);
      if node == null
      then lists[..] == old(lists[..]) && heap' == heap - {e} && finished' == finished + 1
      else
        && lists[..] == old(lists[..])[e.index := node.next]
        && heap' == heap - {e} + {HeapElement(node, e.index)} && finished' == finished
  {
    hide Chain, Linked, Ordered, NoDuplicates, Bag;
    heap', finished' := heap - {e}, finished;
    if lists[e.index] == null {
      finished' := finished' + 1;
    } else {
      heap' := heap' + {HeapElement(lists[e.index], e.index)};
      lists[e.index] := lists[e.index].next;
    }
  }

  lemma HeapIndex(pending: seq<seq<ListNode>>, lists: seq<ListNode?>, heap: set<HeapElement>, e: HeapElement)
    requires Fronts(pending, lists, heap) && e in heap
    ensures 0 <= e.index < |pending| == |lists| && pending[e.index] != [] && e.node == pending[e.index][0]
    ensures lists[e.index] == if |pending[e.index]| > 1 then pending[e.index][1] else null
  {
  }

  lemma TakeBag(all: multiset<ListNode>, done: seq<ListNode>, pending: seq<seq<ListNode>>, i: nat)
    requires i < |pending| && pending[i] != [] && multiset(done) + Bag(pending) == all
    ensures multiset(done + [pending[i][0]]) + Bag(pending[i := pending[i][1..]]) == all
    ensures |Bag(pending[i := pending[i][1..]])| < |Bag(pending)|
  {
    var q := pending[i];
    assert q == [q[0]] + q[1..];
    assert multiset(q) == multiset{q[0]} + multiset(q[1..]);
    BagUpdate(pending, i, q[1..]);
    var less := Bag(pending[i := q[1..]]);
    assert less + multiset{q[0]} + multiset(q[1..]) == less + multiset(q);
    CancelMultiset(less + multiset{q[0]}, Bag(pending), multiset(q[1..]));
    assert Bag(pending[i := q[1..]]) + multiset{q[0]} == Bag(pending);
  }

  lemma ChainTail(s: seq<ListNode>)
    requires s != [] && Chain(s)
    ensures Chain(s[1..])
  {
    forall i | 0 <= i < |s[1..]| ensures s[1..][i].next == if i + 1 < |s[1..]| then s[1..][i + 1] else null {
      ChainAt(s, i + 1);
    }
  }

  method MergeKLists(lists: array<ListNode?>, ghost chains: seq<seq<ListNode>>)
    returns (head: ListNode?, ghost merged: seq<ListNode>)
    requires GoodLists(lists[..], chains)
    modifies lists, NodesOf(chains)`next
    ensures head == First(merged) && Chain(merged) && Sorted(merged)
    ensures multiset(merged) == Bag(chains)
    ensures if merged == [] then head == null else head == merged[0] && merged[|merged| - 1].next == null
    ensures forall i :: 0 <= i < |merged| - 1 ==> merged[i].next == merged[i + 1] && merged[i].val <= merged[i + 1].val
  {
    hide Merging, Chain, Sorted, Bag;
    var minHeap, finishedSubLists := LoadHeap(lists, chains);
    var dummy := new ListNode(0, null);
    var currNode := dummy;
    BagMember(chains, dummy);
    assert dummy !in NodesOf(chains);
    hide GoodLists;
    ghost var done: seq<ListNode>, pending := [], chains;
    MergeStarts(chains, dummy, lists[..], minHeap, finishedSubLists);
    while finishedSubLists != lists.Length
      invariant Merging(Bag(chains), dummy, done, pending, lists[..], minHeap, finishedSubLists)
      invariant currNode == ([dummy] + done)[|done|]
      invariant currNode == dummy || currNode in NodesOf(chains)
      decreases |Bag(pending)|
    {
      HeapNotEmpty(Bag(chains), dummy, done, pending, lists[..], minHeap, finishedSubLists);
      minHeap, finishedSubLists, currNode, done, pending :=
        TakeNode(lists, minHeap, finishedSubLists, currNode, Bag(chains), dummy, done, pending);
      DoneFromChains(Bag(chains), dummy, done, pending, lists[..], minHeap, finishedSubLists, chains);
    }
    HeapNotEmpty(Bag(chains), dummy, done, pending, lists[..], minHeap, finishedSubLists);
    AllDone(Bag(chains), dummy, done, pending, lists[..], minHeap, finishedSubLists);
    head, merged := dummy.next, done;
    ChainMeans(merged);
  }

  lemma ChainMeans(s: seq<ListNode>)
    requires Chain(s) && Sorted(s)
    ensures s != [] ==> s[|s| - 1].next == null
    ensures forall i :: 0 <= i < |s| - 1 ==> s[i].next == s[i + 1] && s[i].val <= s[i + 1].val
  {
    if s != [] { ChainAt(s, |s| - 1); }
  }

  lemma MergeStarts(chains: seq<seq<ListNode>>, dummy: ListNode, lists: seq<ListNode?>, heap: set<HeapElement>,
                    finished: int)
    requires NoDuplicates(Bag(chains)) && dummy !in Bag(chains) && dummy.next == null
    requires forall i :: 0 <= i < |chains| ==> Chain(chains[i]) && Sorted(chains[i])
    requires Fronts(chains, lists, heap) && |heap| + finished == |lists|
    ensures Merging(Bag(chains), dummy, [], chains, lists, heap, finished)
  {
  }

  lemma HeapNotEmpty(all: multiset<ListNode>, dummy: ListNode, done: seq<ListNode>, pending: seq<seq<ListNode>>,
                     lists: seq<ListNode?>, heap: set<HeapElement>, finished: int)
    requires Merging(all, dummy, done, pending, lists, heap, finished)
    ensures heap == {} <==> finished == |lists|
  {
  }

  lemma DoneFromChains(all: multiset<ListNode>, dummy: ListNode, done: seq<ListNode>, pending: seq<seq<ListNode>>,
                       lists: seq<ListNode?>, heap: set<HeapElement>, finished: int, chains: seq<seq<ListNode>>)
    requires Merging(all, dummy, done, pending, lists, heap, finished) && all == Bag(chains) && done != []
    ensures done[|done| - 1] in NodesOf(chains)
  {
    assert done[|done| - 1] in multiset(done);
    BagMember(chains, done[|done| - 1]);
  }

  lemma NodesOfLast(chains: seq<seq<ListNode>>, x: ListNode)
    requires chains != []
    ensures x in NodesOf(chains) <==> x in NodesOf(chains[..|chains| - 1]) || x in chains[|chains| - 1]
  {
    var n := |chains| - 1;
    if x in NodesOf(chains[..n]) {
      var i, a :| 0 <= i < n && 0 <= a < |chains[..n][i]| && chains[..n][i][a] == x;
      assert chains[i][a] == x;
    }
    if x in NodesOf(chains) && x !in chains[n] {
      var i, a :| 0 <= i < |chains| && 0 <= a < |chains[i]| && chains[i][a] == x;
      assert chains[..n][i][a] == x;
    }
  }

  lemma {:induction false} BagMember(chains: seq<seq<ListNode>>, x: ListNode)
    ensures x in Bag(chains) <==> x in NodesOf(chains)
    decreases |chains|
  {
    if chains != [] {
      NodesOfLast(chains, x);
      hide NodesOf;
      BagMember(chains[..|chains| - 1], x);
    }
  }
}
