/**
 Runs on any number of vectors: constructions, copies, moves, assignments and destructions in
 any order, compared with plain sequences, with a bill for every relocated element.
 */
module VectorRuns {
  import opened Vectors

  /** What a vector stands for; `live` is false after it was moved from. */
  datatype Value<T> = Value(contents: seq<T>, live: bool, capacity: nat)

  function Gone<T>(): Value<T> { Value([], false, 0) }

  /** Vectors are named by their place among those that exist, in the order of their construction. */
  datatype Action<T> =
    | Make
    | CopyOf(from: nat)
    | MoveOf(from: nat)
    | On(which: nat, op: Op<T>)
    | PushFrom(to: nat, from: nat, index: nat)
    | Clear(which: nat)
    | Reserve(which: nat, capacity: nat)
    | Assign(to: nat, from: nat)
    | MoveAssign(to: nat, from: nat)
    | Destroy(which: nat)

  /** The action names vectors that exist, and an element that does, when the vectors have these sizes. */
  predicate Possible<T>(sizes: seq<nat>, a: Action<T>) {
    match a
    case Make => true
    case CopyOf(i) => i < |sizes|
    case MoveOf(i) => i < |sizes|
    case On(i, _) => i < |sizes|
    case PushFrom(i, j, k) => i < |sizes| && j < |sizes| && k < sizes[j]
    case Clear(i) => i < |sizes|
    case Reserve(i, _) => i < |sizes|
    case Assign(i, j) => i < |sizes| && j < |sizes|
    case MoveAssign(i, j) => i < |sizes| && j < |sizes|
    case Destroy(i) => i < |sizes|
  }

  function Sizes<T>(s: seq<Value<T>>): seq<nat> { seq(|s|, i requires 0 <= i < |s| => |s[i].contents|) }

  function WithPush<T>(v: Value<T>, x: T): Value<T> {
    Value(v.contents + [x], true, Pushed(Shape(|v.contents|, v.capacity, 0)).capacity)
  }

  function WithOp<T>(v: Value<T>, op: Op<T>): Value<T> {
    match op
    case Push(x) => WithPush(v, x)
    case PushOwn(k) => if k < |v.contents| then WithPush(v, v.contents[k]).(live := v.live) else v
    case Pop => v.(contents := Applied(v.contents, op))
  }

  /** The same action on plain sequences. */
  function Acted<T>(s: seq<Value<T>>, a: Action<T>): seq<Value<T>>
    requires Possible(Sizes(s), a)
  {
    match a
    case Make => s + [Value([], true, 1)]
    case CopyOf(i) => s + [Value(s[i].contents, true, |s[i].contents|)]
    case MoveOf(i) => s[i := Gone()] + [s[i]]
    case On(i, op) => s[i := WithOp(s[i], op)]
    case PushFrom(i, j, k) => s[i := WithPush(s[i], s[j].contents[k])]
    case Clear(i) => s[i := s[i].(contents := [])]
    case Reserve(i, n) => if n > s[i].capacity then s[i := Value(s[i].contents, true, n)] else s
    case Assign(i, j) =>
      if i == j || !s[i].live then s else s[i := Value(s[j].contents, true, |s[j].contents|)]
    case MoveAssign(i, j) => if i == j || !s[i].live then s else s[i := s[j]][j := Gone()]
    case Destroy(i) => s[..i] + s[i + 1..]
  }

  function AfterAll<T>(actions: seq<Action<T>>): seq<Value<T>> {
    if actions == [] then []
    else
      var n := |actions| - 1;
      var s := AfterAll(actions[..n]);
      if Possible(Sizes(s), actions[n]) then Acted(s, actions[n]) else s
  }

  /** Assigning into a moved-from vector does nothing: the second vector holds 7, the first stays empty. */
  lemma LostAssignment()
    ensures AfterAll([Make, On(0, Push(7)), MoveOf(0), Assign(0, 1)]) == [Gone(), Value([7], true, 1)]
  {
    var a: seq<Action<int>> := [Make, On(0, Push(7)), MoveOf(0), Assign(0, 1)];
    assert a[..3][..2] == a[..2] && a[..2][..1] == a[..1] && a[..1][..0] == [];
    assert AfterAll(a[..1]) == [Value([], true, 1)];
    assert a[1] == On(0, Push(7)) && WithOp(Value([], true, 1), Push(7)) == Value([7], true, 1);
    assert AfterAll(a[..2]) == [Value([7], true, 1)];
    assert AfterAll(a[..3]) == [Gone(), Value([7], true, 1)];
  }

  // ----- sums over the vectors -----

  function Total<T>(s: seq<Value<T>>, f: Value<T> -> nat): nat {
    if s == [] then 0 else Total(s[..|s| - 1], f) + f(s[|s| - 1])
  }

  function Length<T>(): Value<T> -> nat { (v: Value<T>) => |v.contents| }

  function Size<T>(s: seq<Value<T>>): nat { Total(s, Length()) }

  lemma {:induction false} TotalUpdate<T>(s: seq<Value<T>>, i: nat, v: Value<T>, f: Value<T> -> nat)
    requires i < |s|
    ensures Total(s[i := v], f) == Total(s, f) - f(s[i]) + f(v)
    decreases |s|
  {
    var n := |s| - 1;
    if i == n {
      assert s[i := v][..n] == s[..n];
    } else {
      assert s[i := v][..n] == s[..n][i := v];
      TotalUpdate(s[..n], i, v, f);
    }
  }

  lemma TotalMore<T>(s: seq<Value<T>>, v: Value<T>, f: Value<T> -> nat)
    ensures Total(s + [v], f) == Total(s, f) + f(v)
  {
    assert (s + [v])[..|s|] == s;
  }

  lemma {:induction false} TotalLess<T>(s: seq<Value<T>>, i: nat, f: Value<T> -> nat)
    requires i < |s|
    ensures Total(s[..i] + s[i + 1..], f) == Total(s, f) - f(s[i])
    decreases |s|
  {
    var n := |s| - 1;
    var rest := s[..i] + s[i + 1..];
    if i == n {
      assert rest == s[..n];
    } else {
      assert rest[..|rest| - 1] == s[..n][..i] + s[..n][i + 1..] && rest[|rest| - 1] == s[n];
      TotalLess(s[..n], i, f);
    }
  }

  /** What one action does to the sum over all vectors. */
  function Change<T>(s: seq<Value<T>>, a: Action<T>, f: Value<T> -> nat): int
    requires Possible(Sizes(s), a)
  {
    match a
    case Make => f(Value([], true, 1))
    case CopyOf(i) => f(Value(s[i].contents, true, |s[i].contents|))
    case MoveOf(_) => 0
    case On(i, _) => f(Acted(s, a)[i]) - f(s[i])
    case PushFrom(i, _, _) => f(Acted(s, a)[i]) - f(s[i])
    case Clear(i) => f(Acted(s, a)[i]) - f(s[i])
    case Reserve(i, _) => f(Acted(s, a)[i]) - f(s[i])
    case Assign(i, _) => f(Acted(s, a)[i]) - f(s[i])
    case MoveAssign(i, j) => if i == j || !s[i].live then 0 else 0 - f(s[i])
    case Destroy(i) => 0 - f(s[i])
  }

  lemma TotalActed<T>(s: seq<Value<T>>, a: Action<T>, f: Value<T> -> nat)
    requires Possible(Sizes(s), a) && f(Gone()) == 0
    ensures Total(Acted(s, a), f) == Total(s, f) + Change(s, a, f)
  {
    hide Total;
    match a {
      case Make => TotalMore(s, Value([], true, 1), f);
      case CopyOf(i) => TotalMore(s, Value(s[i].contents, true, |s[i].contents|), f);
      case MoveOf(i) =>
        TotalUpdate(s, i, Gone(), f);
        TotalMore(s[i := Gone()], s[i], f);
      case On(i, op) => TotalUpdate(s, i, WithOp(s[i], op), f);
      case PushFrom(i, j, k) => TotalUpdate(s, i, WithPush(s[i], s[j].contents[k]), f);
      case Clear(i) => TotalUpdate(s, i, s[i].(contents := []), f);
      case Reserve(i, n) => TotalUpdate(s, i, Value(s[i].contents, true, n), f);
      case Assign(i, j) => TotalUpdate(s, i, Value(s[j].contents, true, |s[j].contents|), f);
      case MoveAssign(i, j) =>
        TotalUpdate(s, i, s[j], f);
        TotalUpdate(s[i := s[j]], j, Gone(), f);
      case Destroy(i) => TotalLess(s, i, f);
    }
  }

  // ----- the bill -----

  /** Elements relocated by growth; insertions; elements copied from other vectors; elements in vectors told to grow. */
  datatype Bill = Bill(relocated: nat, inserted: nat, copied: nat, reserved: nat) {
    function Plus(b: Bill): Bill {
      Bill(relocated + b.relocated, inserted + b.inserted, copied + b.copied, reserved + b.reserved)
    }
  }

  /** An insertion into a full vector relocates all its elements. */
  function PushBill<T>(v: Value<T>): Bill {
    Bill(if |v.contents| == v.capacity then |v.contents| else 0, 1, 0, 0)
  }

  const NO_BILL: Bill := Bill(0, 0, 0, 0)

  function BillOf<T>(s: seq<Value<T>>, a: Action<T>): Bill
    requires Possible(Sizes(s), a)
  {
    match a
    case CopyOf(i) => NO_BILL.(copied := |s[i].contents|)
    case On(i, op) => if Inserts(op, |s[i].contents|) then PushBill(s[i]) else NO_BILL
    case PushFrom(i, _, _) => PushBill(s[i])
    case Reserve(i, n) =>
      if n > s[i].capacity then Bill(|s[i].contents|, 0, 0, |s[i].contents|) else NO_BILL
    case Assign(i, j) => if i == j || !s[i].live then NO_BILL else NO_BILL.(copied := |s[j].contents|)
    case _ => NO_BILL
  }

  function Billed<T>(actions: seq<Action<T>>): Bill {
    if actions == [] then NO_BILL
    else
      var n := |actions| - 1;
      var s := AfterAll(actions[..n]);
      if Possible(Sizes(s), actions[n]) then Billed(actions[..n]).Plus(BillOf(s, actions[n])) else Billed(actions[..n])
  }

  /** Relocations already paid for: the elements beyond half of the capacity, twice. */
  function Saved<T>(): Value<T> -> nat {
    (v: Value<T>) => if 2 * |v.contents| > v.capacity then 2 * |v.contents| - v.capacity else 0
  }

  ghost predicate WithinCapacity<T>(s: seq<Value<T>>) {
    forall i :: 0 <= i < |s| ==> |s[i].contents| <= s[i].capacity
  }

  lemma ActedWithin<T>(s: seq<Value<T>>, a: Action<T>)
    requires Possible(Sizes(s), a) && WithinCapacity(s)
    ensures WithinCapacity(Acted(s, a))
  {
  }

  lemma ActionPays<T>(s: seq<Value<T>>, a: Action<T>)
    requires Possible(Sizes(s), a) && WithinCapacity(s)
    ensures var b := BillOf(s, a);
      b.relocated + Total(Acted(s, a), Saved()) <= Total(s, Saved()) + 2 * b.inserted + b.copied + b.reserved
  {
    hide Total;
    TotalActed(s, a, Saved<T>());
  }

  /**
   Over every run on several vectors: elements relocated by growth are at most two an insertion,
   and one for each element copied, or in a vector told to grow.
   */
  lemma {:induction false} AmortisedRun<T>(actions: seq<Action<T>>)
    ensures var b := Billed(actions);
      b.relocated + Total(AfterAll(actions), Saved()) <= 2 * b.inserted + b.copied + b.reserved
    ensures WithinCapacity(AfterAll(actions))
    decreases |actions|
  {
    hide Total, Acted, BillOf, WithinCapacity;
    if actions == [] {
      NoneYet<T>();
    } else {
      var n := |actions| - 1;
      AmortisedRun(actions[..n]);
      var s := AfterAll(actions[..n]);
      if Possible(Sizes(s), actions[n]) {
        ActionPays(s, actions[n]);
        ActedWithin(s, actions[n]);
      }
    }
  }

  lemma NoneYet<T>()
    ensures Total<T>([], Saved()) == 0 && WithinCapacity<T>([])
  {
  }

  // ----- what the actions and the bill are -----

  /** An action is possible exactly when the vectors it names, and the element, exist. */
  lemma PossibleExactlyWhen<T>(s: seq<Value<T>>, a: Action<T>)
    ensures Possible(Sizes(s), a) <==>
            && (a.CopyOf? || a.MoveOf? ==> a.from < |s|)
            && (a.On? || a.Clear? || a.Reserve? || a.Destroy? ==> a.which < |s|)
            && (a.PushFrom? || a.Assign? || a.MoveAssign? ==> a.to < |s| && a.from < |s|)
            && (a.PushFrom? ==> a.index < |s[a.from].contents|)
  {
  }

  /** The actions in plain terms: what becomes of the vectors' contents. */
  lemma ActionsInPlainTerms<T>(s: seq<Value<T>>, a: Action<T>)
    requires Possible(Sizes(s), a)
    ensures var s' := Acted(s, a);
      && (a.Make? ==> s'[..|s|] == s && |s'| == |s| + 1 && s'[|s|].contents == [])
      && (a.CopyOf? ==> a.from < |s| && |s'| == |s| + 1 && s'[..|s|] == s && s'[|s|].contents == s[a.from].contents)
      && (a.MoveOf? ==> a.from < |s| && |s'| == |s| + 1 && s'[|s|] == s[a.from] && s'[a.from].contents == [])
      && (a.On? ==> a.which < |s| == |s'| && s'[a.which].contents == Applied(s[a.which].contents, a.op))
      && (a.PushFrom? ==>
            && a.to < |s| == |s'| && a.from < |s| && a.index < |s[a.from].contents|
            && s'[a.to].contents == s[a.to].contents + [s[a.from].contents[a.index]])
      && (a.Clear? ==> a.which < |s| == |s'| && s'[a.which].contents == [])
      && (a.Reserve? ==> a.which < |s| == |s'| && s'[a.which].contents == s[a.which].contents)
      && (a.Destroy? ==> a.which < |s| == |s'| + 1 && s' == s[..a.which] + s[a.which + 1..])
  {
  }

  /** Assignments in plain terms; a destination that was moved from stays as it is. */
  lemma AssignmentsInPlainTerms<T>(s: seq<Value<T>>, a: Action<T>)
    requires Possible(Sizes(s), a) && (a.Assign? || a.MoveAssign?)
    ensures var s' := Acted(s, a);
      && a.to < |s| == |s'| && a.from < |s|
      && s'[a.to].contents == (if s[a.to].live then s[a.from].contents else s[a.to].contents)
      && (a.from != a.to ==>
            s'[a.from].contents == if a.MoveAssign? && s[a.to].live then [] else s[a.from].contents)
      && forall k :: 0 <= k < |s| && k != a.to && k != a.from ==> s'[k] == s[k]
  {
  }

  /** An action changes only the vectors that it names. */
  lemma OthersUntouched<T>(s: seq<Value<T>>, a: Action<T>, k: nat)
    requires Possible(Sizes(s), a) && k < |s| && !a.Destroy?
    requires a.On? || a.Clear? || a.Reserve? ==> k != a.which
    requires a.PushFrom? || a.Assign? || a.MoveAssign? ==> k != a.to
    requires a.MoveOf? || a.MoveAssign? ==> k != a.from
    ensures k < |Acted(s, a)| && Acted(s, a)[k] == s[k]
  {
  }

  /** What an action pays for: an insertion, elements copied, or elements in a vector told to grow. */
  lemma BillInPlainTerms<T>(s: seq<Value<T>>, a: Action<T>)
    requires Possible(Sizes(s), a)
    ensures var b, s' := BillOf(s, a), Acted(s, a);
      && b.inserted == (if (a.On? || a.PushFrom?) && Size(s') > Size(s) then 1 else 0)
      && b.copied == (if a.CopyOf? then |s[a.from].contents|
                      else if a.Assign? && a.to != a.from && s[a.to].live then |s[a.from].contents| else 0)
      && b.reserved == (if a.Reserve? && a.capacity > s[a.which].capacity then |s[a.which].contents| else 0)
  {
    hide Total;
    TotalActed(s, a, Length());
  }

  /** A vector has room for at most one element, or twice the largest size any vector had, or what was reserved. */
  lemma {:induction false} CapacityBound<T>(actions: seq<Action<T>>, size: nat, reserved: nat)
    requires forall k, i :: 0 <= k <= |actions| && 0 <= i < |AfterAll(actions[..k])| ==>
               |AfterAll(actions[..k])[i].contents| <= size
    requires forall k :: 0 <= k < |actions| && actions[k].Reserve? ==> actions[k].capacity <= reserved
    ensures forall i :: 0 <= i < |AfterAll(actions)| ==>
              var c := AfterAll(actions)[i].capacity; c <= 1 || c <= 2 * size || c <= reserved
    decreases |actions|
  {
    assert actions[..|actions|] == actions;
    if actions != [] {
      var n := |actions| - 1;
      forall k | 0 <= k <= n ensures actions[..n][..k] == actions[..k] {}
      CapacityBound(actions[..n], size, reserved);
      var s := AfterAll(actions[..n]);
      if Possible(Sizes(s), actions[n]) {
        CapacityStep(s, actions[n], size, reserved);
      }
    }
  }

  lemma CapacityStep<T>(s: seq<Value<T>>, a: Action<T>, size: nat, reserved: nat)
    requires Possible(Sizes(s), a) && (a.Reserve? ==> a.capacity <= reserved)
    requires forall i :: 0 <= i < |s| ==> |s[i].contents| <= size
    requires forall i :: 0 <= i < |s| ==> s[i].capacity <= 1 || s[i].capacity <= 2 * size || s[i].capacity <= reserved
    ensures forall i :: 0 <= i < |Acted(s, a)| ==>
              var c := Acted(s, a)[i].capacity; c <= 1 || c <= 2 * size || c <= reserved
  {
  }

  // ----- the vectors themselves -----

  ghost predicate Stands<T>(v: Vector<T>, x: Value<T>, lifetime: Lifetime)
    reads v, v.buffer
  {
    && v.Valid() && v.lifetime == lifetime && v.contents == x.contents
    && v.Initialized() == x.live && v.GetCapacity() == x.capacity
  }

  lemma StandsMeans<T>(v: Vector<T>, x: Value<T>, lifetime: Lifetime)
    ensures Stands(v, x, lifetime) <==>
            && v.Valid() && v.lifetime == lifetime && v.contents == x.contents
            && v.Initialized() == x.live && v.GetCapacity() == x.capacity
  {
  }

  /** No two vectors share anything but the lifetime counter. */
  ghost predicate Apart<T>(vs: seq<Vector<T>>)
    reads vs
  {
    forall i, j :: 0 <= i < |vs| && 0 <= j < |vs| && i != j ==>
      vs[i] != vs[j] && (vs[i].buffer == null || vs[i].buffer != vs[j].buffer)
  }

  /** The buffers in use. */
  ghost function Buffers<T>(vs: seq<Vector<T>>): set<array?<Slot<T>>>
    reads vs
  {
    set v | v in vs :: v.buffer
  }

  ghost predicate AllStand<T>(vs: seq<Vector<T>>, s: seq<Value<T>>, lifetime: Lifetime)
    reads vs, Buffers(vs)
  {
    && |vs| == |s| && Apart(vs)
    && (forall i :: 0 <= i < |vs| ==> Stands(vs[i], s[i], lifetime))
  }

  /** When one vector changed, into its old buffer or a new one, and the others stand for what they did. */
  lemma OneChanged<T>(vs: seq<Vector<T>>, i: nat, s: seq<Value<T>>, x: Value<T>, lifetime: Lifetime)
    requires |vs| == |s| && i < |vs| && Apart(vs) && Stands(vs[i], x, lifetime)
    requires forall k :: 0 <= k < |vs| && k != i ==> Stands(vs[k], s[k], lifetime)
    ensures AllStand(vs, s[i := x], lifetime)
  {
  }

  lemma PushShape<T>(v: Value<T>, x: T, relocated: nat)
    ensures var shape := Pushed(Shape(|v.contents|, v.capacity, relocated));
      && WithPush(v, x).contents == v.contents + [x] && WithPush(v, x).live && shape.size == |v.contents| + 1
      && WithPush(v, x).capacity == shape.capacity && shape.relocated == relocated + PushBill(v).relocated
  {
  }

  lemma OpShape<T>(v: Value<T>, op: Op<T>, relocated: nat)
    ensures var shape := Resized(Shape(|v.contents|, v.capacity, relocated), op);
      && WithOp(v, op).contents == Applied(v.contents, op) && WithOp(v, op).live == (v.live || op.Push?)
      && WithOp(v, op).capacity == shape.capacity
      && shape.relocated == relocated + if Inserts(op, |v.contents|) then PushBill(v).relocated else 0
  {
  }

  method ActOn<T>(vs: seq<Vector<T>>, i: nat, op: Op<T>, ghost s: seq<Value<T>>, lifetime: Lifetime)
    requires AllStand(vs, s, lifetime) && i < |vs|
    modifies vs, Buffers(vs), lifetime
    ensures AllStand(vs, Acted(s, On(i, op)), lifetime)
    ensures forall v :: v in vs ==> v.buffer == null || v.buffer in old(Buffers(vs)) || fresh(v.buffer)
    ensures lifetime.alive - Size(Acted(s, On(i, op))) == old(lifetime.alive) - Size(s)
    ensures lifetime.relocated == old(lifetime.relocated) + BillOf(s, On(i, op)).relocated
  {
    hide Total, Stands, Applied, Resized, Pushed, WithOp, WithPush, PushBill;
    ghost var x := WithOp(s[i], op);
    OpShape(s[i], op, lifetime.relocated);
    TotalUpdate(s, i, x, Length());
    StandsMeans(vs[i], s[i], lifetime);
    Perform(vs[i], op);
    StandsMeans(vs[i], x, lifetime);
    OneChanged(vs, i, s, x, lifetime);
  }

  method ActPushFrom<T>(vs: seq<Vector<T>>, i: nat, j: nat, k: nat, ghost s: seq<Value<T>>, lifetime: Lifetime)
    requires AllStand(vs, s, lifetime) && i < |s| && j < |s| && k < |s[j].contents|
    modifies vs, Buffers(vs), lifetime
    ensures AllStand(vs, Acted(s, PushFrom(i, j, k)), lifetime)
    ensures forall v :: v in vs ==> v.buffer == null || v.buffer in old(Buffers(vs)) || fresh(v.buffer)
    ensures lifetime.alive - Size(Acted(s, PushFrom(i, j, k))) == old(lifetime.alive) - Size(s)
    ensures lifetime.relocated == old(lifetime.relocated) + BillOf(s, PushFrom(i, j, k)).relocated
  {
    hide Total, Stands, Applied, Resized, Pushed, WithOp, WithPush, PushBill;
    ghost var x := WithPush(s[i], s[j].contents[k]);
    PushShape(s[i], s[j].contents[k], lifetime.relocated);
    TotalUpdate(s, i, x, Length());
    StandsMeans(vs[i], s[i], lifetime);
    StandsMeans(vs[j], s[j], lifetime);
    vs[i].PushBack(InSlot(vs[j].buffer, k));
    StandsMeans(vs[i], x, lifetime);
    OneChanged(vs, i, s, x, lifetime);
  }

  method ActClear<T>(vs: seq<Vector<T>>, i: nat, ghost s: seq<Value<T>>, lifetime: Lifetime)
    requires AllStand(vs, s, lifetime) && i < |vs|
    modifies vs, Buffers(vs), lifetime`alive
    ensures AllStand(vs, Acted(s, Clear(i)), lifetime)
    ensures forall v :: v in vs ==> v.buffer == null || v.buffer in old(Buffers(vs)) || fresh(v.buffer)
    ensures lifetime.alive - Size(Acted(s, Clear(i))) == old(lifetime.alive) - Size(s)
    ensures lifetime.relocated == old(lifetime.relocated) + BillOf(s, Clear(i)).relocated
  {
    hide Total, Stands;
    ghost var s' := Acted(s, Clear(i));
    TotalActed(s, Clear(i), Length());
    StandsMeans(vs[i], s[i], lifetime);
    vs[i].Clear();
    StandsMeans(vs[i], s'[i], lifetime);
    OneChanged(vs, i, s', s'[i], lifetime);
  }

  method ActReserve<T>(vs: seq<Vector<T>>, i: nat, n: nat, ghost s: seq<Value<T>>, lifetime: Lifetime)
    requires AllStand(vs, s, lifetime) && i < |vs|
    modifies vs, Buffers(vs), lifetime
    ensures AllStand(vs, Acted(s, Reserve(i, n)), lifetime)
    ensures forall v :: v in vs ==> v.buffer == null || v.buffer in old(Buffers(vs)) || fresh(v.buffer)
    ensures lifetime.alive - Size(Acted(s, Reserve(i, n))) == old(lifetime.alive) - Size(s)
    ensures lifetime.relocated == old(lifetime.relocated) + BillOf(s, Reserve(i, n)).relocated
  {
    hide Total, Stands;
    ghost var s' := Acted(s, Reserve(i, n));
    TotalActed(s, Reserve(i, n), Length());
    StandsMeans(vs[i], s[i], lifetime);
    vs[i].Reserve(n);
    StandsMeans(vs[i], s'[i], lifetime);
    OneChanged(vs, i, s', s'[i], lifetime);
  }

  method ActAssign<T>(vs: seq<Vector<T>>, i: nat, j: nat, ghost s: seq<Value<T>>, lifetime: Lifetime)
    requires AllStand(vs, s, lifetime) && i < |vs| && j < |vs|
    modifies vs, Buffers(vs), lifetime`alive
    ensures AllStand(vs, Acted(s, Assign(i, j)), lifetime)
    ensures forall v :: v in vs ==> v.buffer == null || v.buffer in old(Buffers(vs)) || fresh(v.buffer)
    ensures lifetime.alive - Size(Acted(s, Assign(i, j))) == old(lifetime.alive) - Size(s)
    ensures lifetime.relocated == old(lifetime.relocated) + BillOf(s, Assign(i, j)).relocated
  {
    hide Total, Stands;
    ghost var s' := Acted(s, Assign(i, j));
    TotalActed(s, Assign(i, j), Length());
    StandsMeans(vs[i], s[i], lifetime);
    StandsMeans(vs[j], s[j], lifetime);
    vs[i].Assign(vs[j]);
    StandsMeans(vs[i], s'[i], lifetime);
    OneChanged(vs, i, s', s'[i], lifetime);
  }

  method ActMoveAssign<T>(vs: seq<Vector<T>>, i: nat, j: nat, ghost s: seq<Value<T>>, lifetime: Lifetime)
    requires AllStand(vs, s, lifetime) && i < |vs| && j < |vs|
    modifies vs, Buffers(vs), lifetime`alive
    ensures AllStand(vs, Acted(s, MoveAssign(i, j)), lifetime)
    ensures forall v :: v in vs ==> v.buffer == null || v.buffer in old(Buffers(vs)) || fresh(v.buffer)
    ensures lifetime.alive - Size(Acted(s, MoveAssign(i, j))) == old(lifetime.alive) - Size(s)
    ensures lifetime.relocated == old(lifetime.relocated) + BillOf(s, MoveAssign(i, j)).relocated
  {
    hide Total, Stands;
    ghost var s' := Acted(s, MoveAssign(i, j));
    TotalActed(s, MoveAssign(i, j), Length());
    StandsMeans(vs[i], s[i], lifetime);
    StandsMeans(vs[j], s[j], lifetime);
    vs[i].MoveAssign(vs[j]);
    StandsMeans(vs[i], s'[i], lifetime);
    StandsMeans(vs[j], s'[j], lifetime);
    assert forall k :: 0 <= k < |vs| && k != i && k != j ==> s'[k] == s[k];
    hide Acted;
    OneChanged(vs, i, s', s'[i], lifetime);
  }

  lemma OneLess<T>(vs: seq<Vector<T>>, i: nat, s: seq<Value<T>>, lifetime: Lifetime)
    requires |vs| == |s| && i < |vs| && Apart(vs)
    requires forall k :: 0 <= k < |vs| && k != i ==> Stands(vs[k], s[k], lifetime)
    ensures AllStand(vs[..i] + vs[i + 1..], s[..i] + s[i + 1..], lifetime)
  {
    hide Stands;
    var rest := vs[..i] + vs[i + 1..];
    assert forall k :: 0 <= k < |rest| ==> rest[k] == vs[if k < i then k else k + 1];
  }

  method ActDestroy<T>(vs: seq<Vector<T>>, i: nat, ghost s: seq<Value<T>>, lifetime: Lifetime)
    returns (later: seq<Vector<T>>)
    requires AllStand(vs, s, lifetime) && i < |vs|
    modifies vs, Buffers(vs), lifetime`alive
    ensures later == vs[..i] + vs[i + 1..] && AllStand(later, Acted(s, Destroy(i)), lifetime)
    ensures forall v :: v in vs ==> v.buffer == null || v.buffer in old(Buffers(vs)) || fresh(v.buffer)
    ensures lifetime.alive - Size(Acted(s, Destroy(i))) == old(lifetime.alive) - Size(s)
    ensures lifetime.relocated == old(lifetime.relocated) + BillOf(s, Destroy(i)).relocated
  {
    hide Total, Stands;
    TotalActed(s, Destroy(i), Length());
    StandsMeans(vs[i], s[i], lifetime);
    vs[i].Destroy();
    later := vs[..i] + vs[i + 1..];
    OneLess(vs, i, s, lifetime);
  }

  lemma OneMore<T>(vs: seq<Vector<T>>, v: Vector<T>, s: seq<Value<T>>, x: Value<T>, lifetime: Lifetime)
    requires AllStand(vs, s, lifetime) && Stands(v, x, lifetime) && v !in vs
    requires v.buffer == null || v.buffer !in Buffers(vs)
    ensures AllStand(vs + [v], s + [x], lifetime)
  {
    hide Stands;
    assert forall k :: 0 <= k < |vs| ==> vs[k].buffer in Buffers(vs);
  }

  method ActNew<T>(vs: seq<Vector<T>>, ghost s: seq<Value<T>>, lifetime: Lifetime) returns (v: Vector<T>)
    requires AllStand(vs, s, lifetime)
    ensures AllStand(vs + [v], Acted(s, Make), lifetime) && fresh(v) && fresh(v.buffer)
    ensures Size(Acted(s, Make)) == Size(s) && BillOf(s, Make).relocated == 0
  {
    TotalMore(s, Value([], true, 1), Length());
    v := new Vector<T>(lifetime);
    OneMore(vs, v, s, Value([], true, 1), lifetime);
  }

  method ActCopyOf<T>(vs: seq<Vector<T>>, i: nat, ghost s: seq<Value<T>>, lifetime: Lifetime) returns (v: Vector<T>)
    requires AllStand(vs, s, lifetime) && i < |vs|
    modifies lifetime`alive
    ensures AllStand(vs + [v], Acted(s, CopyOf(i)), lifetime) && fresh(v) && fresh(v.buffer)
    ensures lifetime.alive - Size(Acted(s, CopyOf(i))) == old(lifetime.alive) - Size(s)
    ensures lifetime.relocated == old(lifetime.relocated) + BillOf(s, CopyOf(i)).relocated
  {
    ghost var x := Value(s[i].contents, true, |s[i].contents|);
    TotalMore(s, x, Length());
    assert Stands(vs[i], s[i], lifetime);
    v := new Vector<T>.Copy(vs[i]);
    OneMore(vs, v, s, x, lifetime);
  }

  method ActMoveOf<T>(vs: seq<Vector<T>>, i: nat, ghost s: seq<Value<T>>, lifetime: Lifetime) returns (v: Vector<T>)
    requires AllStand(vs, s, lifetime) && i < |vs|
    modifies vs
    ensures AllStand(vs + [v], Acted(s, MoveOf(i)), lifetime) && fresh(v)
    ensures forall w :: w in vs + [v] ==> w.buffer == null || w.buffer in old(Buffers(vs))
    ensures Size(Acted(s, MoveOf(i))) == Size(s) && BillOf(s, MoveOf(i)).relocated == 0
  {
    hide Total, Stands;
    ghost var gone := Gone<T>();
    TotalUpdate(s, i, gone, Length());
    TotalMore(s[i := gone], s[i], Length());
    StandsMeans(vs[i], s[i], lifetime);
    v := new Vector<T>.Move(vs[i]);
    StandsMeans(vs[i], gone, lifetime);
    StandsMeans(v, s[i], lifetime);
    OneChanged(vs, i, s, gone, lifetime);
    OneMore(vs, v, s[i := gone], s[i], lifetime);
  }

  method ActConstruct<T>(vs: seq<Vector<T>>, a: Action<T>, ghost s: seq<Value<T>>, lifetime: Lifetime)
    returns (v: Vector<T>)
    requires AllStand(vs, s, lifetime) && Possible(Sizes(s), a) && (a.Make? || a.CopyOf? || a.MoveOf?)
    modifies vs, lifetime
    ensures AllStand(vs + [v], Acted(s, a), lifetime) && fresh(v)
    ensures forall w :: w in vs + [v] ==> w.buffer == null || w.buffer in old(Buffers(vs)) || fresh(w.buffer)
    ensures lifetime.alive - Size(Acted(s, a)) == old(lifetime.alive) - Size(s)
    ensures lifetime.relocated == old(lifetime.relocated) + BillOf(s, a).relocated
  {
    hide Stands, Total, Acted, Apart, BillOf, Size;
    if a.Make? {
      v := ActNew(vs, s, lifetime);
    } else if a.CopyOf? {
      v := ActCopyOf(vs, a.from, s, lifetime);
    } else {
      v := ActMoveOf(vs, a.from, s, lifetime);
    }
  }

  method ActInPlace<T>(vs: seq<Vector<T>>, a: Action<T>, ghost s: seq<Value<T>>, lifetime: Lifetime)
    requires AllStand(vs, s, lifetime) && Possible(Sizes(s), a)
    requires !a.Make? && !a.CopyOf? && !a.MoveOf? && !a.Destroy?
    modifies vs, Buffers(vs), lifetime
    ensures AllStand(vs, Acted(s, a), lifetime)
    ensures forall v :: v in vs ==> v.buffer == null || v.buffer in old(Buffers(vs)) || fresh(v.buffer)
    ensures lifetime.alive - Size(Acted(s, a)) == old(lifetime.alive) - Size(s)
    ensures lifetime.relocated == old(lifetime.relocated) + BillOf(s, a).relocated
  {
    hide Stands, Total, Acted, Apart, BillOf, Size;
    match a {
      case On(i, op) => ActOn(vs, i, op, s, lifetime);
      case PushFrom(i, j, k) => ActPushFrom(vs, i, j, k, s, lifetime);
      case Clear(i) => ActClear(vs, i, s, lifetime);
      case Reserve(i, n) => ActReserve(vs, i, n, s, lifetime);
      case Assign(i, j) => ActAssign(vs, i, j, s, lifetime);
      case MoveAssign(i, j) => ActMoveAssign(vs, i, j, s, lifetime);
    }
  }

  method ActPossible<T>(vs: seq<Vector<T>>, a: Action<T>, ghost s: seq<Value<T>>, lifetime: Lifetime)
    returns (later: seq<Vector<T>>)
    requires AllStand(vs, s, lifetime) && Possible(Sizes(s), a)
    modifies vs, Buffers(vs), lifetime
    ensures AllStand(later, Acted(s, a), lifetime) && forall v :: v in later ==> v in vs || fresh(v)
    ensures forall v :: v in later ==> v.buffer == null || v.buffer in old(Buffers(vs)) || fresh(v.buffer)
    ensures lifetime.alive - Size(Acted(s, a)) == old(lifetime.alive) - Size(s)
    ensures lifetime.relocated == old(lifetime.relocated) + BillOf(s, a).relocated
  {
    hide Stands, Total, Acted, Apart, BillOf, Size;
    later := vs;
    if a.Make? || a.CopyOf? || a.MoveOf? {
      var v := ActConstruct(vs, a, s, lifetime);
      later := vs + [v];
    } else if a.Destroy? {
      later := ActDestroy(vs, a.which, s, lifetime);
    } else {
      ActInPlace(vs, a, s, lifetime);
    }
  }

  method SizesOf<T>(vs: seq<Vector<T>>, ghost s: seq<Value<T>>, lifetime: Lifetime) returns (sizes: seq<nat>)
    requires AllStand(vs, s, lifetime)
    ensures sizes == Sizes(s)
  {
    sizes := [];
    for i := 0 to |vs|
      invariant sizes == Sizes(s)[..i]
    {
      assert Stands(vs[i], s[i], lifetime);
      sizes := sizes + [vs[i].GetSize()];
    }
  }

  /** A set of objects that covers the vectors and their buffers. */
  ghost predicate Owned<T>(vs: seq<Vector<T>>, owned: set<object>)
    reads vs
  {
    forall v :: v in vs ==> v in owned && (v.buffer != null ==> v.buffer in owned)
  }

  /** One action; an impossible one is refused and changes nothing. */
  method Act<T>(vs: seq<Vector<T>>, a: Action<T>, ghost s: seq<Value<T>>, lifetime: Lifetime, ghost owned: set<object>)
    returns (later: seq<Vector<T>>, ghost owns: set<object>)
    requires AllStand(vs, s, lifetime) && Owned(vs, owned)
    modifies owned, lifetime
    ensures AllStand(later, if Possible(Sizes(s), a) then Acted(s, a) else s, lifetime)
    ensures Owned(later, owns) && fresh(owns - owned)
    ensures lifetime.alive - Size(if Possible(Sizes(s), a) then Acted(s, a) else s) == old(lifetime.alive) - Size(s)
    ensures lifetime.relocated == old(lifetime.relocated) + if Possible(Sizes(s), a) then BillOf(s, a).relocated else 0
  {
    hide Stands, Total, Acted, Apart, BillOf, Size;
    later, owns := vs, owned;
    var sizes := SizesOf(vs, s, lifetime);
    if !Possible(sizes, a) {
      return;
    }
    later := ActPossible(vs, a, s, lifetime);
    owns := owned + (set v | v in later) + (set v | v in later && v.buffer != null :: v.buffer);
  }

  lemma NoVectors<T>(vs: seq<Vector<T>>, lifetime: Lifetime)
    requires vs == []
    ensures AllStand(vs, [], lifetime) && Size<T>([]) == 0
  {
  }

  method ReadAll<T>(vs: seq<Vector<T>>, ghost s: seq<Value<T>>, lifetime: Lifetime)
    returns (contents: seq<seq<T>>, capacities: seq<nat>)
    requires AllStand(vs, s, lifetime)
    ensures |contents| == |capacities| == |s|
    ensures forall i :: 0 <= i < |s| ==> contents[i] == s[i].contents && capacities[i] == s[i].capacity
  {
    contents, capacities := [], [];
    for i := 0 to |vs|
      invariant |contents| == |capacities| == i
      invariant forall k :: 0 <= k < i ==> contents[k] == s[k].contents && capacities[k] == s[k].capacity
    {
      assert Stands(vs[i], s[i], lifetime);
      var elements := [];
      for k := 0 to vs[i].GetSize()
        invariant elements == s[i].contents[..k]
      {
        elements := elements + [vs[i].At(k).value];
      }
      contents, capacities := contents + [elements], capacities + [vs[i].GetCapacity()];
    }
  }

  /** Destroys every vector, the last one first. */
  method DestroyAll<T>(vs: seq<Vector<T>>, ghost s: seq<Value<T>>, lifetime: Lifetime, ghost owned: set<object>)
    returns (left: int)
    requires AllStand(vs, s, lifetime) && Owned(vs, owned)
    modifies owned, lifetime`alive
    ensures left == lifetime.alive == old(lifetime.alive) - Size(s)
  {
    hide Stands, Apart, Total;
    var rest := vs;
    ghost var t := s;
    while rest != []
      invariant AllStand(rest, t, lifetime)
      invariant forall v: Vector<T> :: v in rest ==>
                v in owned && (v.buffer == null || v.buffer in owned || fresh(v.buffer))
      invariant lifetime.alive - Size(t) == old(lifetime.alive) - Size(s)
      decreases |rest|
    {
      var n := |rest| - 1;
      rest := ActDestroy(rest, n, t, lifetime);
      t := Acted(t, Destroy(n));
    }
    assert Size(t) == 0 by { NoVectors(rest, lifetime); }
    left := lifetime.alive;
  }

  /**
   Over any run on several vectors, moved-from ones included, each acts as its plain sequence,
   the elements alive are always the sum of the sizes, relocations stay within the bill, and
   nothing is left once all vectors are destroyed.
   */
  method ReplayAll<T>(actions: seq<Action<T>>)
    returns (contents: seq<seq<T>>, capacities: seq<nat>, alive: int, left: int, ghost relocated: nat)
    ensures |contents| == |capacities| == |AfterAll(actions)|
    ensures forall i :: 0 <= i < |contents| ==>
              contents[i] == AfterAll(actions)[i].contents && capacities[i] == AfterAll(actions)[i].capacity
    ensures alive == Size(AfterAll(actions)) && left == 0
    ensures relocated == Billed(actions).relocated
    ensures relocated <= 2 * Billed(actions).inserted + Billed(actions).copied + Billed(actions).reserved
  {
    hide Total, Acted, Stands, BillOf;
    var lifetime := new Lifetime();
    var vs: seq<Vector<T>> := [];
    ghost var owned: set<object> := {};
    assert AllStand(vs, [], lifetime) && Size<T>([]) == 0 by { NoVectors(vs, lifetime); }
    for n := 0 to |actions|
      invariant fresh(lifetime) && AllStand(vs, AfterAll(actions[..n]), lifetime)
      invariant Owned(vs, owned) && fresh(owned)
      invariant lifetime.alive == Size(AfterAll(actions[..n])) && lifetime.relocated == Billed(actions[..n]).relocated
    {
      assert actions[..n + 1][..n] == actions[..n];
      vs, owned := Act(vs, actions[n], AfterAll(actions[..n]), lifetime, owned);
    }
    assert actions[..|actions|] == actions;
    AmortisedRun(actions);
    contents, capacities := ReadAll(vs, AfterAll(actions), lifetime);
    alive, relocated := lifetime.alive, lifetime.relocated;
    left := DestroyAll(vs, AfterAll(actions), lifetime, owned);
  }
}
