/**
 A segment tree whose nodes are allocated on first use. Queries are compared with a plain
 sequence and its left-to-right fold, for any associative operation with an identity.
 */
module SegmentTree {
  import opened Wrappers

  const INT_MAX := 2147483647

  /** The value of a uniquely owned node and everything under it. */
  datatype Tree<T> = Nil | Branch(val: T, left: Tree<T>, right: Tree<T>)

  ghost predicate Monoid<T(!new)>(op: (T, T) -> T, identity: T) {
    && (forall a, b, c :: op(op(a, b), c) == op(a, op(b, c)))
    && (forall a :: op(identity, a) == a && op(a, identity) == a)
  }

  ghost function Fold<T>(s: seq<T>, op: (T, T) -> T, identity: T): T {
    if s == [] then identity else op(Fold(s[..|s| - 1], op, identity), s[|s| - 1])
  }

  function ValueOf<T>(t: Tree<T>, identity: T): T { if t.Nil? then identity else t.val }

  function Middle(low: int, high: int): int
    requires low <= high
  {
    low + (high - low) / 2
  }

  /** The readings of positions low..high; an absent node stands for the identity. */
  ghost function Leaves<T>(t: Tree<T>, low: int, high: int, identity: T): (s: seq<T>)
    requires low <= high
    ensures |s| == high - low + 1
    decreases high - low
  {
    if t.Nil? then seq(high - low + 1, _ => identity)
    else if low == high then [t.val]
    else Leaves(t.left, low, Middle(low, high), identity) + Leaves(t.right, Middle(low, high) + 1, high, identity)
  }

  /** Every inner node holds the combination of its children, and leaves have none. */
  ghost predicate Consistent<T>(t: Tree<T>, low: int, high: int, op: (T, T) -> T, identity: T)
    requires low <= high
    decreases high - low
  {
    t.Nil? ||
    if low == high then t.left.Nil? && t.right.Nil?
    else
      && t.val == op(ValueOf(t.left, identity), ValueOf(t.right, identity))
      && Consistent(t.left, low, Middle(low, high), op, identity)
      && Consistent(t.right, Middle(low, high) + 1, high, op, identity)
  }

  // ----- the operations on tree values -----

  function Inserted<T>(t: Tree<T>, low: int, high: int, index: int, value: T, op: (T, T) -> T, identity: T): Tree<T>
    requires low <= index <= high
    decreases high - low
  {
    var left, right := if t.Nil? then Nil else t.left, if t.Nil? then Nil else t.right;
    if low == high then Branch(value, left, right)
    else
      var mid := Middle(low, high);
      if index <= mid then
        var left' := Inserted(left, low, mid, index, value, op, identity);
        Branch(op(ValueOf(left', identity), ValueOf(right, identity)), left', right)
      else
        var right' := Inserted(right, mid + 1, high, index, value, op, identity);
        Branch(op(ValueOf(left, identity), ValueOf(right', identity)), left, right')
  }

  function Answer<T>(t: Tree<T>, low: int, high: int, l: int, r: int, op: (T, T) -> T, identity: T): T
    requires low <= high
    decreases high - low
  {
    if t.Nil? || r < low || high < l then identity
    else if l <= low && high <= r then t.val
    else if low == high then assert false; identity
    else
      var mid := Middle(low, high);
      op(Answer(t.left, low, mid, l, r, op, identity), Answer(t.right, mid + 1, high, l, r, op, identity))
  }

  lemma InsertedBranch<T>(t: Tree<T>, low: int, high: int, index: int, value: T, op: (T, T) -> T, identity: T)
    requires low <= index <= high && low < high && t.Branch?
    ensures var mid := Middle(low, high);
      var left := if index <= mid then Inserted(t.left, low, mid, index, value, op, identity) else t.left;
      var right := if index <= mid then t.right else Inserted(t.right, mid + 1, high, index, value, op, identity);
      Inserted(t, low, high, index, value, op, identity) ==
          Branch(op(ValueOf(left, identity), ValueOf(right, identity)), left, right)
  {
  }

  // ----- folds -----

  lemma MonoidLaws<T(!new)>(op: (T, T) -> T, identity: T, a: T, b: T, c: T)
    requires Monoid(op, identity)
    ensures op(op(a, b), c) == op(a, op(b, c)) && op(identity, a) == a && op(a, identity) == a
  {
  }

  lemma {:induction false} FoldConcat<T(!new)>(a: seq<T>, b: seq<T>, op: (T, T) -> T, identity: T)
    requires Monoid(op, identity)
    ensures Fold(a + b, op, identity) == op(Fold(a, op, identity), Fold(b, op, identity))
    decreases |b|
  {
    hide Monoid;
    if b == [] {
      assert a + b == a;
      var f := Fold(a, op, identity);
      MonoidLaws(op, identity, f, f, f);
    } else {
      var c := b[..|b| - 1];
      assert (a + b)[..|a + b| - 1] == a + c;
      FoldConcat(a, c, op, identity);
      MonoidLaws(op, identity, Fold(a, op, identity), Fold(c, op, identity), b[|b| - 1]);
    }
  }

  lemma {:induction false} FoldIdentity<T(!new)>(s: seq<T>, op: (T, T) -> T, identity: T)
    requires Monoid(op, identity) && forall i :: 0 <= i < |s| ==> s[i] == identity
    ensures Fold(s, op, identity) == identity
    decreases |s|
  {
    hide Monoid;
    if s != [] {
      FoldIdentity(s[..|s| - 1], op, identity);
      MonoidLaws(op, identity, identity, identity, identity);
    }
  }

  lemma {:induction false} ValueIsFold<T(!new)>(t: Tree<T>, low: int, high: int, op: (T, T) -> T, identity: T)
    requires Monoid(op, identity) && low <= high && Consistent(t, low, high, op, identity)
    ensures ValueOf(t, identity) == Fold(Leaves(t, low, high, identity), op, identity)
    decreases high - low
  {
    hide Monoid;
    var s := Leaves(t, low, high, identity);
    if t.Nil? {
      FoldIdentity(s, op, identity);
    } else if low == high {
      assert s[..0] == [];
      MonoidLaws(op, identity, t.val, t.val, t.val);
    } else {
      var mid := Middle(low, high);
      ValueIsFold(t.left, low, mid, op, identity);
      ValueIsFold(t.right, mid + 1, high, op, identity);
      FoldConcat(Leaves(t.left, low, mid, identity), Leaves(t.right, mid + 1, high, identity), op, identity);
    }
  }

  function Clamp(x: int, n: nat): nat { if x < 0 then 0 else if x > n then n else x }

  /** The part of low..high inside l..r, as a slice of a sequence that starts at `low`. */
  ghost function Clip<T>(s: seq<T>, low: int, l: int, r: int): seq<T> {
    var from, to := Clamp(l - low, |s|), Clamp(r - low + 1, |s|);
    if from <= to then s[from..to] else []
  }

  lemma SliceConcat<T>(a: seq<T>, b: seq<T>, from: nat, to: nat)
    requires from <= to <= |a| + |b|
    ensures var n := |a|;
      (a + b)[from..to] == a[Clamp(from, n)..Clamp(to, n)] + b[Clamp(from - n, |b|)..Clamp(to - n, |b|)]
  {
  }

  lemma ClampSplit(x: int, n: nat, m: nat)
    ensures Clamp(Clamp(x, n + m), n) == Clamp(x, n) && Clamp(Clamp(x, n + m) - n, m) == Clamp(x - n, m)
  {
  }

  lemma ClipIs<T>(s: seq<T>, low: int, l: int, r: int)
    requires l <= r
    ensures Clamp(l - low, |s|) <= Clamp(r - low + 1, |s|) <= |s|
    ensures Clip(s, low, l, r) == s[Clamp(l - low, |s|)..Clamp(r - low + 1, |s|)]
  {
  }

  lemma ClipConcat<T>(a: seq<T>, b: seq<T>, low: int, l: int, r: int)
    requires l <= r
    ensures Clip(a + b, low, l, r) == Clip(a, low, l, r) + Clip(b, low + |a|, l, r)
  {
    hide Clamp, Clip;
    var n, m := |a|, |b|;
    ClipIs(a + b, low, l, r);
    ClipIs(a, low, l, r);
    ClipIs(b, low + n, l, r);
    ClampSplit(l - low, n, m);
    ClampSplit(r - low + 1, n, m);
    SliceConcat(a, b, Clamp(l - low, n + m), Clamp(r - low + 1, n + m));
  }

  lemma WholeClip<T>(s: seq<T>, low: int, l: int, r: int)
    requires l <= low && low + |s| - 1 <= r
    ensures Clip(s, low, l, r) == s
  {
  }

  /** A query folds exactly the readings it asks for, in order. */
  lemma {:induction false} QueryIsFold<T(!new)>(t: Tree<T>, low: int, high: int, l: int, r: int, op: (T, T) -> T,
                                         identity: T)
    requires Monoid(op, identity) && low <= high && l <= r && Consistent(t, low, high, op, identity)
    ensures Answer(t, low, high, l, r, op, identity) ==
            Fold(Clip(Leaves(t, low, high, identity), low, l, r), op, identity)
    decreases high - low
  {
    hide Fold, Monoid, Clip;
    var s := Leaves(t, low, high, identity);
    if t.Nil? || r < low || high < l {
      EmptyFold(t, low, high, l, r, op, identity);
    } else if l <= low && high <= r {
      WholeClip(s, low, l, r);
      ValueIsFold(t, low, high, op, identity);
    } else {
      var mid := Middle(low, high);
      QueryIsFold(t.left, low, mid, l, r, op, identity);
      QueryIsFold(t.right, mid + 1, high, l, r, op, identity);
      LeavesSplit(t, low, high, identity);
      ClipFold(Leaves(t.left, low, mid, identity), Leaves(t.right, mid + 1, high, identity), low, l, r, op, identity);
    }
  }

  lemma EmptyFold<T(!new)>(t: Tree<T>, low: int, high: int, l: int, r: int, op: (T, T) -> T, identity: T)
    requires Monoid(op, identity) && low <= high && l <= r && (t.Nil? || r < low || high < l)
    ensures Fold(Clip(Leaves(t, low, high, identity), low, l, r), op, identity) == identity
  {
    hide Fold, Monoid;
    EmptyClip(t, low, high, l, r, identity);
    FoldIdentity(Clip(Leaves(t, low, high, identity), low, l, r), op, identity);
  }

  lemma EmptyClip<T>(t: Tree<T>, low: int, high: int, l: int, r: int, identity: T)
    requires low <= high && l <= r && (t.Nil? || r < low || high < l)
    ensures var c := Clip(Leaves(t, low, high, identity), low, l, r); forall i :: 0 <= i < |c| ==> c[i] == identity
  {
  }

  lemma LeavesSplit<T>(t: Tree<T>, low: int, high: int, identity: T)
    requires low < high && t.Branch?
    ensures var mid := Middle(low, high);
      && low <= mid < high
      && Leaves(t, low, high, identity) == Leaves(t.left, low, mid, identity) + Leaves(t.right, mid + 1, high, identity)
      && low + |Leaves(t.left, low, mid, identity)| == mid + 1
  {
  }

  lemma ClipFold<T(!new)>(a: seq<T>, b: seq<T>, low: int, l: int, r: int, op: (T, T) -> T, identity: T)
    requires Monoid(op, identity) && l <= r
    ensures Fold(Clip(a + b, low, l, r), op, identity) ==
            op(Fold(Clip(a, low, l, r), op, identity), Fold(Clip(b, low + |a|, l, r), op, identity))
  {
    hide Monoid, Fold, Clip;
    ClipConcat(a, b, low, l, r);
    FoldConcat(Clip(a, low, l, r), Clip(b, low + |a|, l, r), op, identity);
  }

  lemma QuerySlice<T(!new)>(t: Tree<T>, size: int, l: int, r: int, op: (T, T) -> T, identity: T)
    requires Monoid(op, identity) && 0 <= l <= r < size && Consistent(t, 0, size - 1, op, identity)
    ensures Answer(t, 0, size - 1, l, r, op, identity) == Fold(Leaves(t, 0, size - 1, identity)[l..r + 1], op, identity)
  {
    hide Fold, Monoid, Leaves, Answer, Consistent;
    QueryIsFold(t, 0, size - 1, l, r, op, identity);
  }

  lemma {:induction false} InsertConsistent<T>(t: Tree<T>, low: int, high: int, index: int, value: T, op: (T, T) -> T,
                                               identity: T)
    requires low <= index <= high && Consistent(t, low, high, op, identity)
    ensures Consistent(Inserted(t, low, high, index, value, op, identity), low, high, op, identity)
    decreases high - low
  {
    if low < high {
      var left, right := if t.Nil? then Nil else t.left, if t.Nil? then Nil else t.right;
      var mid := Middle(low, high);
      if index <= mid {
        InsertConsistent(left, low, mid, index, value, op, identity);
      } else {
        InsertConsistent(right, mid + 1, high, index, value, op, identity);
      }
    }
  }

  lemma {:induction false} InsertLeaves<T>(t: Tree<T>, low: int, high: int, index: int, value: T, op: (T, T) -> T,
                                           identity: T)
    requires low <= index <= high
    ensures Leaves(Inserted(t, low, high, index, value, op, identity), low, high, identity) ==
            Leaves(t, low, high, identity)[index - low := value]
    decreases high - low
  {
    if low < high {
      var left, right := if t.Nil? then Nil else t.left, if t.Nil? then Nil else t.right;
      var mid := Middle(low, high);
      assert Leaves(t, low, high, identity) ==
          Leaves(left, low, mid, identity) + Leaves(right, mid + 1, high, identity);
      if index <= mid {
        InsertLeaves(left, low, mid, index, value, op, identity);
      } else {
        InsertLeaves(right, mid + 1, high, index, value, op, identity);
      }
    }
  }

  /** An insertion replaces one reading and keeps every inner value right. */
  lemma InsertReplaces<T>(t: Tree<T>, low: int, high: int, index: int, value: T, op: (T, T) -> T, identity: T)
    requires low <= index <= high && Consistent(t, low, high, op, identity)
    ensures var t' := Inserted(t, low, high, index, value, op, identity);
      && Consistent(t', low, high, op, identity)
      && Leaves(t', low, high, identity) == Leaves(t, low, high, identity)[index - low := value]
  {
    hide Consistent, Leaves, Inserted;
    InsertConsistent(t, low, high, index, value, op, identity);
    InsertLeaves(t, low, high, index, value, op, identity);
  }

  /** The old tree becomes the left half, because the new middle is the old right end. */
  lemma GrowDoubles<T(!new)>(t: Tree<T>, size: int, op: (T, T) -> T, identity: T)
    requires size > 0 && Consistent(t, 0, size - 1, op, identity)
    ensures var t' := Branch(op(ValueOf(t, identity), identity), t, Nil);
      && Middle(0, 2 * size - 1) == size - 1
      && Consistent(t', 0, 2 * size - 1, op, identity)
      && Leaves(t', 0, 2 * size - 1, identity) == Leaves(t, 0, size - 1, identity) + seq(size, _ => identity)
  {
  }

  // ----- cost -----

  /** Levels below the root of a range of n positions: the least h with n <= 2^h. */
  function Height(n: nat): nat { if n <= 1 then 0 else 1 + Height((n + 1) / 2) }

  function Power2(h: nat): nat { if h == 0 then 1 else 2 * Power2(h - 1) }

  lemma {:induction false} HeightIsLog(n: nat)
    requires n > 0
    ensures n <= Power2(Height(n))
    ensures n > 1 ==> Power2(Height(n) - 1) < n
  {
    if n > 1 {
      HeightIsLog((n + 1) / 2);
    }
  }

  lemma {:induction false} HeightMonotone(m: nat, n: nat)
    requires m <= n
    ensures Height(m) <= Height(n)
    decreases n
  {
    if m > 1 {
      HeightMonotone((m + 1) / 2, (n + 1) / 2);
    }
  }

  function NodeCount<T>(t: Tree<T>): nat { if t.Nil? then 0 else 1 + NodeCount(t.left) + NodeCount(t.right) }

  lemma Halves(low: int, high: int)
    requires low < high
    ensures var n, mid := high - low + 1, Middle(low, high);
      && low <= mid < high
      && Height(mid - low + 1) <= Height(n) - 1 && Height(high - mid) <= Height(n) - 1
  {
    var n, mid := high - low + 1, Middle(low, high);
    HeightMonotone(mid - low + 1, (n + 1) / 2);
    HeightMonotone(high - mid, (n + 1) / 2);
  }

  /** An insertion allocates at most one node on each level. */
  lemma {:induction false} InsertAllocates<T>(t: Tree<T>, low: int, high: int, index: int, value: T, op: (T, T) -> T,
                                              identity: T)
    requires low <= index <= high
    ensures var t' := Inserted(t, low, high, index, value, op, identity);
      NodeCount(t) <= NodeCount(t') <= NodeCount(t) + Height(high - low + 1) + 1
    decreases high - low
  {
    if low < high {
      var left, right := if t.Nil? then Nil else t.left, if t.Nil? then Nil else t.right;
      var mid := Middle(low, high);
      Halves(low, high);
      if index <= mid {
        InsertAllocates(left, low, mid, index, value, op, identity);
      } else {
        InsertAllocates(right, mid + 1, high, index, value, op, identity);
      }
    }
  }

  /** Recursive calls of one query, the first included. */
  function QueryCalls<T>(t: Tree<T>, low: int, high: int, l: int, r: int): nat
    requires low <= high
    decreases high - low
  {
    if t.Nil? || r < low || high < l || (l <= low && high <= r) || low == high then 1
    else
      var mid := Middle(low, high);
      1 + QueryCalls(t.left, low, mid, l, r) + QueryCalls(t.right, mid + 1, high, l, r)
  }

  /** A call that is not answered at once makes both recursive calls. */
  lemma CallsAddUp<T>(t: Tree<T>, low: int, high: int, l: int, r: int)
    requires low <= high
    ensures QueryCalls(t, low, high, l, r) >= 1
    ensures t.Branch? && low < high && l <= high && low <= r && !(l <= low && high <= r) ==>
              QueryCalls(t, low, high, l, r) ==
              1 + QueryCalls(t.left, low, Middle(low, high), l, r) + QueryCalls(t.right, Middle(low, high) + 1, high,
                  l, r)
  {
  }

  /** A range that reaches one end of the node's own costs two calls a level. */
  lemma {:induction false} OneSidedCalls<T>(t: Tree<T>, low: int, high: int, l: int, r: int)
    requires low <= high && l <= r && (l <= low || high <= r)
    ensures QueryCalls(t, low, high, l, r) <= 2 * Height(high - low + 1) + 1
    decreases high - low
  {
    if !(t.Nil? || r < low || high < l || (l <= low && high <= r) || low == high) {
      var mid := Middle(low, high);
      Halves(low, high);
      OneSidedCalls(t.left, low, mid, l, r);
      OneSidedCalls(t.right, mid + 1, high, l, r);
    }
  }

  lemma {:induction false} QueryCallsBound<T>(t: Tree<T>, low: int, high: int, l: int, r: int)
    requires low <= high && l <= r
    ensures QueryCalls(t, low, high, l, r) <= 4 * Height(high - low + 1) + 1
    decreases high - low
  {
    if !(t.Nil? || r < low || high < l || (l <= low && high <= r) || low == high) {
      var mid := Middle(low, high);
      Halves(low, high);
      if r <= mid || mid < l {
        QueryCallsBound(t.left, low, mid, l, r);
        QueryCallsBound(t.right, mid + 1, high, l, r);
      } else {
        OneSidedCalls(t.left, low, mid, l, r);
        OneSidedCalls(t.right, mid + 1, high, l, r);
      }
    }
  }

  // ----- the nodes and the tree object -----

  class Node<T> {
    var val: T
    var left: Node?<T>
    var right: Node?<T>
    /** The nodes owned from here, and the value they add up to. */
    ghost var repr: set<object>
    ghost var tree: Tree<T>

    constructor (value: T)
      ensures Valid() && fresh(repr) && tree == Branch(value, Nil, Nil)
      ensures val == value && left == null && right == null
    {
      val, left, right := value, null, null;
      repr, tree := {this}, Branch(value, Nil, Nil);
    }

    ghost predicate Valid()
      reads this, repr
      ensures Valid() ==> this in repr
      decreases repr
    {
      && this in repr
      && (left != null ==> left in repr && left.repr <= repr - {this} && left.Valid())
      && (right != null ==> right in repr && right.repr <= repr - {this} && right.Valid())
      && (left != null && right != null ==> left.repr !! right.repr)
      && repr == {this} + (if left == null then {} else left.repr) + (if right == null then {} else right.repr)
      && tree == Branch(val, if left == null then Nil else left.tree, if right == null then Nil else right.tree)
    }
  }

  ghost function ReprOf<T>(node: Node?<T>): set<object>
    reads node
  {
    if node == null then {} else node.repr
  }

  ghost function TreeOf<T>(node: Node?<T>): Tree<T>
    reads node
  {
    if node == null then Nil else node.tree
  }

  /** A tree value has as many branches as there are node objects. */
  lemma {:induction false} NodesAreCounted<T>(node: Node?<T>)
    requires node != null ==> node.Valid()
    ensures |ReprOf(node)| == NodeCount(TreeOf(node))
    decreases ReprOf(node)
  {
    if node != null {
      NodesAreCounted(node.left);
      NodesAreCounted(node.right);
      var l, r := ReprOf(node.left), ReprOf(node.right);
      assert node.repr == {node} + l + r && l !! r && node !in l && node !in r;
      assert |node.repr| == 1 + |l| + |r|;
    }
  }

  class SegmentTree<T(!new)> {
    var size: int
    const identity: T
    const combine: (T, T) -> T
    var root: Node?<T>

    ghost predicate Valid()
      reads this, root, ReprOf(root)
    {
      && 0 < size <= INT_MAX
      && this !in ReprOf(root)
      && (root != null ==> root.Valid())
      && Consistent(TreeOf(root), 0, size - 1, combine, identity)
    }

    /** The current readings, one for each position. */
    ghost function Contents(): (s: seq<T>)
      requires Valid()
      reads this, root, ReprOf(root)
      ensures |s| == size
    {
      Leaves(TreeOf(root), 0, size - 1, identity)
    }

    constructor Sized(size: int, identity: T, combine: (T, T) -> T)
      requires 0 < size <= INT_MAX
      ensures Valid() && Contents() == seq(size, _ => identity)
      ensures this.size == size && this.identity == identity && this.combine == combine && root == null
    {
      this.size, this.identity, this.combine, root := size, identity, combine, null;
    }

    /** Creation is refused unless the size is positive. */
    static method Create(size: int, identity: T, combine: (T, T) -> T) returns (r: Result<SegmentTree<T>, string>)
      requires size <= INT_MAX
      ensures r.Success? <==> size > 0
      ensures r.Success? ==> fresh(r.value) && r.value.Valid() && r.value.Contents() == seq(size, _ => identity)
                             && r.value.identity == identity && r.value.combine == combine && r.value.root == null
    {
      if size <= 0 {
        return Failure("Size must be positive");
      }
      var tree := new SegmentTree<T>.Sized(size, identity, combine);
      r := Success(tree);
    }

    method Insert(index: int, value: T) returns (r: Result<(), string>)
      requires Valid()
      modifies this, ReprOf(root)
      ensures Valid() && size == old(size) && fresh(ReprOf(root) - old(ReprOf(root)))
      ensures r.Success? <==> 0 <= index < size
      ensures Contents() == if r.Success? then old(Contents())[index := value] else old(Contents())
      ensures NodeCount(TreeOf(root)) <= NodeCount(old(TreeOf(root))) + Height(size) + 1
    {
      hide Leaves, Inserted, Consistent, NodeCount, Height;
      if index < 0 || index >= size {
        return Failure("Invalid index");
      }
      ghost var before := TreeOf(root);
      InsertReplaces(before, 0, size - 1, index, value, combine, identity);
      InsertAllocates(before, 0, size - 1, index, value, combine, identity);
      InsertAtRoot(index, value);
      r := Success(());
    }

    /** The insertion as far as the nodes go. */
    method InsertAtRoot(index: int, value: T)
      requires this !in ReprOf(root) && (root != null ==> root.Valid()) && 0 <= index < size
      modifies this`root, ReprOf(root)
      ensures root != null && root.Valid() && this !in ReprOf(root) && fresh(ReprOf(root) - old(ReprOf(root)))
      ensures TreeOf(root) == old(Inserted(TreeOf(root), 0, size - 1, index, value, combine, identity))
    {
      hide Inserted;
      var newRoot := InsertAt(root, 0, size - 1, index, value);
      root := newRoot;
    }

    method InsertAt(node: Node?<T>, low: int, high: int, index: int, value: T) returns (n: Node<T>)
      requires low <= index <= high && this !in ReprOf(node)
      requires node != null ==> node.Valid()
      modifies ReprOf(node)
      ensures n.Valid() && fresh(n.repr - old(ReprOf(node))) && (node != null ==> n == node)
      ensures n.tree == old(Inserted(TreeOf(node), low, high, index, value, combine, identity))
      decreases high - low, 2
    {
      if node == null {
        n := new Node<T>(identity);
      } else {
        n := node;
      }
      if low == high {
        n.val := value;
        n.tree := Branch(value, n.tree.left, n.tree.right);
      } else {
        InsertBelow(n, low, high, index, value);
      }
    }

    /** The part of the insertion below an inner node, and its new value. */
    method InsertBelow(n: Node<T>, low: int, high: int, index: int, value: T)
      requires low <= index <= high && low < high && this !in n.repr && n.Valid()
      modifies n.repr
      ensures n.Valid() && fresh(n.repr - old(n.repr))
      ensures n.tree == old(Inserted(n.tree, low, high, index, value, combine, identity))
      decreases high - low, 1
    {
      hide Inserted, ValueOf;
      InsertedBranch(n.tree, low, high, index, value, combine, identity);
      if index <= low + (high - low) / 2 {
        InsertLeft(n, low, high, index, value);
      } else {
        InsertRight(n, low, high, index, value);
      }
      Recombine(n);
    }

    /** What a node needs of its children before its own value is set. */
    ghost predicate Joins(n: Node<T>)
      reads n, n.repr
    {
      && n in n.repr
      && (n.left != null ==> n.left in n.repr && n.left.repr <= n.repr - {n} && n.left.Valid())
      && (n.right != null ==> n.right in n.repr && n.right.repr <= n.repr - {n} && n.right.Valid())
      && (n.left != null && n.right != null ==> n.left.repr !! n.right.repr)
      && n.repr == {n} + ReprOf(n.left) + ReprOf(n.right)
    }

    method InsertLeft(n: Node<T>, low: int, high: int, index: int, value: T)
      requires low < high && low <= index <= Middle(low, high) && this !in n.repr && n.Valid()
      modifies n.repr
      ensures Joins(n) && fresh(n.repr - old(n.repr)) && TreeOf(n.right) == old(TreeOf(n.right))
      ensures TreeOf(n.left) == old(Inserted(TreeOf(n.left), low, Middle(low, high), index, value, combine, identity))
      decreases high - low, 0
    {
      hide Inserted;
      var left := InsertAt(n.left, low, low + (high - low) / 2, index, value);
      assert n !in left.repr && ReprOf(n.right) == old(ReprOf(n.right)) && TreeOf(n.right) == old(TreeOf(n.right));
      assert n.right != null ==> n.right.Valid() && n.right.repr !! left.repr;
      Attach(n, left, n.right);
    }

    /** Gives a node its two children; its own value is set later. */
    method Attach(n: Node<T>, left: Node?<T>, right: Node?<T>)
      requires left != null ==> left.Valid() && n !in left.repr
      requires right != null ==> right.Valid() && n !in right.repr
      requires left != null && right != null ==> left.repr !! right.repr
      modifies n`left, n`right, n`repr
      ensures Joins(n) && n.left == left && n.right == right
      ensures n.repr == {n} + ReprOf(left) + ReprOf(right)
      ensures TreeOf(left) == old(TreeOf(left)) && TreeOf(right) == old(TreeOf(right))
    {
      n.left, n.right := left, right;
      n.repr := {n} + ReprOf(left) + ReprOf(right);
    }

    method InsertRight(n: Node<T>, low: int, high: int, index: int, value: T)
      requires low < high && Middle(low, high) < index <= high && this !in n.repr && n.Valid()
      modifies n.repr
      ensures Joins(n) && fresh(n.repr - old(n.repr)) && TreeOf(n.left) == old(TreeOf(n.left))
      ensures TreeOf(n.right) ==
              old(Inserted(TreeOf(n.right), Middle(low, high) + 1, high, index, value, combine, identity))
      decreases high - low, 0
    {
      hide Inserted;
      var right := InsertAt(n.right, low + (high - low) / 2 + 1, high, index, value);
      assert n !in right.repr && ReprOf(n.left) == old(ReprOf(n.left)) && TreeOf(n.left) == old(TreeOf(n.left));
      assert n.left != null ==> n.left.Valid() && n.left.repr !! right.repr;
      Attach(n, n.left, right);
    }

    method Recombine(n: Node<T>)
      requires Joins(n)
      modifies n`val, n`tree
      ensures n.Valid()
      ensures n.tree == Branch(combine(ValueOf(TreeOf(n.left), identity), ValueOf(TreeOf(n.right), identity)),
                               TreeOf(n.left), TreeOf(n.right))
    {
      n.val := combine(ValueAt(n.left), ValueAt(n.right));
      n.tree := Branch(n.val, TreeOf(n.left), TreeOf(n.right));
    }

    function ValueAt(node: Node?<T>): (v: T)
      requires node != null ==> node.tree.Branch? && node.tree.val == node.val
      reads node
      ensures v == ValueOf(TreeOf(node), identity)
    {
      if node == null then identity else node.val
    }

    method Update(index: int, value: T) returns (r: Result<(), string>)
      requires Valid()
      modifies this, ReprOf(root)
      ensures Valid() && size == old(size) && fresh(ReprOf(root) - old(ReprOf(root)))
      ensures r.Success? <==> 0 <= index < size
      ensures Contents() == if r.Success? then old(Contents())[index := value] else old(Contents())
    {
      r := Insert(index, value);
    }

    /** The left-to-right combination of the readings in left..right. */
    method Query(left: int, right: int) returns (r: Result<T, string>, ghost calls: nat)
      requires Valid() && Monoid(combine, identity)
      ensures r.Success? <==> 0 <= left <= right < size
      ensures r.Success? ==> r.value == Fold(Contents()[left..right + 1], combine, identity)
      ensures r.Success? ==> calls <= 4 * Height(size) + 1
    {
      hide Fold, Monoid, Leaves, QueryCalls, Answer, Height, Consistent, Clip;
      calls := 0;
      if left < 0 || left > right || right >= size {
        return Failure("Invalid query range"), 0;
      }
      QuerySlice(TreeOf(root), size, left, right, combine, identity);
      QueryCallsBound(TreeOf(root), 0, size - 1, left, right);
      var v;
      v, calls := QueryAt(root, 0, size - 1, left, right);
      r := Success(v);
    }

    method QueryAt(node: Node?<T>, low: int, high: int, left: int, right: int) returns (r: T, ghost calls: nat)
      requires low <= high && (node != null ==> node.Valid())
      ensures r == Answer(TreeOf(node), low, high, left, right, combine, identity)
      ensures calls == QueryCalls(TreeOf(node), low, high, left, right)
      decreases high - low
    {
      if node == null || right < low || high < left {
        return identity, 1;
      }
      if left <= low && high <= right {
        return node.val, 1;
      }
      var mid := low + (high - low) / 2;
      var a, m := QueryAt(node.left, low, mid, left, right);
      var b, n := QueryAt(node.right, mid + 1, high, left, right);
      r, calls := combine(a, b), 1 + m + n;
    }

    /** Doubles the range: old readings stay, new positions read as the identity. */
    method Grow() returns (r: Result<(), string>)
      requires Valid()
      modifies this
      ensures Valid() && fresh(ReprOf(root) - old(ReprOf(root)))
      ensures r.Success? <==> old(size) <= 0x3FFF_FFFF
      ensures if r.Success? then size == 2 * old(size) && Contents() == old(Contents()) + seq(old(size), _ => identity)
              else size == old(size) && Contents() == old(Contents())
    {
      hide Leaves, Consistent;
      if size > INT_MAX / 2 {
        return Failure("Tree capacity is too large");
      }
      GrowDoubles(TreeOf(root), size, combine, identity);
      var newRoot := new Node<T>(identity);
      newRoot.left := root;
      newRoot.val := combine(ValueAt(newRoot.left), ValueAt(newRoot.right));
      newRoot.repr := newRoot.repr + ReprOf(root);
      newRoot.tree := Branch(newRoot.val, TreeOf(root), Nil);
      root := newRoot;
      size := size * 2;
      r := Success(());
    }
  }

  // ----- whole runs -----

  datatype Op<T> = Insert(index: int, value: T) | Update(index: int, value: T) | Grow

  /** One operation on a plain sequence; an index out of range, or a range too large to double, changes nothing. */
  function Applied<T>(s: seq<T>, op: Op<T>, identity: T): seq<T> {
    match op
    case Insert(i, v) => if 0 <= i < |s| then s[i := v] else s
    case Update(i, v) => if 0 <= i < |s| then s[i := v] else s
    case Grow => if |s| <= INT_MAX / 2 then s + seq(|s|, _ => identity) else s
  }

  function Plain<T>(size: nat, ops: seq<Op<T>>, identity: T): seq<T> {
    if ops == [] then seq(size, _ => identity)
    else Applied(Plain(size, ops[..|ops| - 1], identity), ops[|ops| - 1], identity)
  }

  /** The plain sequence, operation by operation. */
  lemma PlainStep<T>(size: nat, ops: seq<Op<T>>, op: Op<T>, identity: T)
    ensures var s, s' := Plain(size, ops, identity), Plain(size, ops + [op], identity);
      && (op.Insert? || op.Update? ==>
            && |s'| == |s| && (0 <= op.index < |s| ==> s'[op.index] == op.value)
            && forall i :: 0 <= i < |s| && i != op.index ==> s'[i] == s[i])
      && (op.Grow? && |s| <= INT_MAX / 2 ==>
            && |s'| == 2 * |s| && (forall i :: 0 <= i < |s| ==> s'[i] == s[i])
            && forall i :: |s| <= i < |s'| ==> s'[i] == identity)
      && (op.Grow? && |s| > INT_MAX / 2 ==> s' == s)
    ensures |Plain(size, [], identity)| == size
    ensures forall i :: 0 <= i < size ==> Plain(size, [], identity)[i] == identity
  {
    assert (ops + [op])[..|ops|] == ops;
  }

  /** A fold is the operation applied from left to right, from the identity. */
  lemma FoldStep<T>(s: seq<T>, x: T, op: (T, T) -> T, identity: T)
    ensures Fold([], op, identity) == identity
    ensures Fold(s + [x], op, identity) == op(Fold(s, op, identity), x)
  {
    assert (s + [x])[..|s|] == s;
  }

  method Perform<T(!new)>(tree: SegmentTree<T>, op: Op<T>)
    requires tree.Valid()
    modifies tree, ReprOf(tree.root)
    ensures tree.Valid() && tree.Contents() == Applied(old(tree.Contents()), op, tree.identity)
    ensures fresh(ReprOf(tree.root) - old(ReprOf(tree.root)))
  {
    match op {
      case Insert(i, v) => var r := tree.Insert(i, v);
      case Update(i, v) => var r := tree.Update(i, v);
      case Grow => var r := tree.Grow();
    }
  }

  /**
   A tree made for any size, after any sequence of insertions, updates and growths: every query
   is the left-to-right fold of the plain sequence, refused exactly outside its range.
   */
  method Replay<T(!new)>(size: int, identity: T, combine: (T, T) -> T, ops: seq<Op<T>>, left: int, right: int)
    returns (r: Result<T, string>)
    requires size <= INT_MAX && Monoid(combine, identity)
    ensures r.Success? <==> size > 0 && 0 <= left <= right < |Plain(size, ops, identity)|
    ensures r.Success? ==> r.value == Fold(Plain(size, ops, identity)[left..right + 1], combine, identity)
  {
    hide Applied, Fold, Monoid, Leaves;
    var made := SegmentTree<T>.Create(size, identity, combine);
    if made.Failure? {
      return Failure(made.error);
    }
    var tree := made.value;
    for n := 0 to |ops|
      invariant fresh(tree) && fresh(ReprOf(tree.root)) && tree.Valid()
      invariant tree.Contents() == Plain(size, ops[..n], identity)
    {
      assert ops[..n + 1][..n] == ops[..n];
      Perform(tree, ops[n]);
    }
    assert ops[..|ops|] == ops;
    ghost var calls;
    r, calls := tree.Query(left, right);
  }
}
