/**
 A growable vector over raw slots. Slots are constructed and destroyed one by one, and a
 shared counter follows how many elements are alive.
 */
module Vectors {
  import opened Wrappers

  /** Storage for one element: raw memory, or a constructed value. */
  datatype Slot<T> = Raw | Built(value: T)

  /** The static count of constructed and not yet destroyed elements, and of those relocated by growth so far. */
  class Lifetime {
    var alive: int
    ghost var relocated: nat

    constructor ()
      ensures alive == 0 && relocated == 0
    {
      alive, relocated := 0, 0;
    }
  }

  /** An argument passed by reference: a value elsewhere, or a slot of some buffer. */
  datatype Reference<T> = Elsewhere(value: T) | InSlot(buffer: array<Slot<T>>, index: nat)

  ghost predicate Live<T>(r: Reference<T>)
    reads if r.InSlot? then {r.buffer} else {}
  {
    r.InSlot? ==> r.index < r.buffer.Length && r.buffer[r.index].Built?
  }

  function Read<T>(r: Reference<T>): T
    requires Live(r)
    reads if r.InSlot? then {r.buffer} else {}
  {
    if r.InSlot? then r.buffer[r.index].value else r.value
  }

  method ConstructAt<T>(a: array<Slot<T>>, i: nat, v: T, lifetime: Lifetime)
    requires i < a.Length && a[i].Raw?
    modifies a, lifetime`alive
    ensures a[i] == Built(v) && forall j :: 0 <= j < a.Length && j != i ==> a[j] == old(a[j])
    ensures lifetime.alive == old(lifetime.alive) + 1
  {
    a[i] := Built(v);
    lifetime.alive := lifetime.alive + 1;
  }

  method DestroyAt<T>(a: array<Slot<T>>, i: nat, lifetime: Lifetime)
    requires i < a.Length && a[i].Built?
    modifies a, lifetime`alive
    ensures a[i] == Raw && forall j :: 0 <= j < a.Length && j != i ==> a[j] == old(a[j])
    ensures lifetime.alive == old(lifetime.alive) - 1
  {
    a[i] := Raw;
    lifetime.alive := lifetime.alive - 1;
  }

  /** Slots 0, ..., |s| - 1 hold exactly `s` and every later slot is raw. */
  ghost predicate Holds<T>(a: array<Slot<T>>, s: seq<T>)
    reads a
  {
    && |s| <= a.Length
    && (forall i :: 0 <= i < |s| ==> a[i] == Built(s[i]))
    && (forall i :: |s| <= i < a.Length ==> a[i] == Raw)
  }

  // ----- growth, without the elements -----

  /** Size, capacity, and elements relocated so far. */
  datatype Shape = Shape(size: nat, capacity: nat, relocated: nat)

  /** `PushOwn` appends a reference to the vector's own element at `index`; reading past the end is refused. */
  datatype Op<T> = Push(value: T) | PushOwn(index: nat) | Pop

  function Pushed(s: Shape): Shape {
    if s.size == s.capacity then Shape(s.size + 1, if s.capacity == 0 then 1 else 2 * s.capacity, s.relocated + s.size)
    else s.(size := s.size + 1)
  }

  /** Popping an empty vector is refused and changes nothing. */
  function Popped(s: Shape): Shape { if s.size == 0 then s else s.(size := s.size - 1) }

  predicate Inserts<T>(op: Op<T>, size: nat) { op.Push? || (op.PushOwn? && op.index < size) }

  function Resized<T>(s: Shape, op: Op<T>): Shape {
    if Inserts(op, s.size) then Pushed(s) else if op.Pop? then Popped(s) else s
  }

  /** One operation on a plain sequence. */
  function Applied<T>(s: seq<T>, op: Op<T>): seq<T> {
    match op
    case Push(v) => s + [v]
    case PushOwn(i) => if i < |s| then s + [s[i]] else s
    case Pop => if s == [] then s else s[..|s| - 1]
  }

  function Plain<T>(ops: seq<Op<T>>): seq<T> {
    if ops == [] then [] else Applied(Plain(ops[..|ops| - 1]), ops[|ops| - 1])
  }

  function After<T>(ops: seq<Op<T>>): Shape {
    if ops == [] then Shape(0, 1, 0) else Resized(After(ops[..|ops| - 1]), ops[|ops| - 1])
  }

  /** The plain sequence, operation by operation. */
  lemma PlainStep<T>(ops: seq<Op<T>>, op: Op<T>)
    ensures Plain<T>([]) == []
    ensures var s, s' := Plain(ops), Plain(ops + [op]);
      && (op.Push? ==> s' == s + [op.value])
      && (op.PushOwn? ==> s' == if op.index < |s| then s + [s[op.index]] else s)
      && (op.Pop? ==> |s'| == (if |s| == 0 then 0 else |s| - 1) && forall i :: 0 <= i < |s'| ==> s'[i] == s[i])
  {
    assert (ops + [op])[..|ops|] == ops;
  }

  /** An insertion is an operation after which the plain sequence is longer. */
  lemma PushesStep<T>(ops: seq<Op<T>>, op: Op<T>)
    ensures Pushes<T>([]) == 0
    ensures Pushes(ops + [op]) == Pushes(ops) + if |Plain(ops + [op])| > |Plain(ops)| then 1 else 0
  {
    assert (ops + [op])[..|ops|] == ops;
    SizeOfPlain(ops);
  }

  lemma {:induction false} SizeOfPlain<T>(ops: seq<Op<T>>)
    ensures After(ops).size == |Plain(ops)|
    decreases |ops|
  {
    if ops != [] { SizeOfPlain(ops[..|ops| - 1]); }
  }

  function Pushes<T>(ops: seq<Op<T>>): nat {
    if ops == [] then 0
    else
      var before := ops[..|ops| - 1];
      Pushes(before) + if Inserts(ops[|ops| - 1], After(before).size) then 1 else 0
  }

  /** After m insertions, all growth so far was paid for by insertions since the last doubling. */
  ghost predicate PaidFor(s: Shape, m: nat) {
    && s.size <= s.capacity && s.size <= m
    && s.relocated == s.capacity - 1
    && (s.capacity == 1 || s.capacity <= 2 * (m - 1))
  }

  lemma PushPays(s: Shape, m: nat)
    requires PaidFor(s, m)
    ensures PaidFor(Pushed(s), m + 1) && PaidFor(Popped(s), m)
  {
  }

  lemma {:induction false} EveryRunPays<T>(ops: seq<Op<T>>)
    ensures PaidFor(After(ops), Pushes(ops))
    decreases |ops|
  {
    if ops != [] {
      EveryRunPays(ops[..|ops| - 1]);
      PushPays(After(ops[..|ops| - 1]), Pushes(ops[..|ops| - 1]));
    }
  }

  /** m insertions into a fresh vector, with any removals between them, relocate at most 2m elements. */
  lemma AmortisedGrowth<T>(ops: seq<Op<T>>)
    ensures After(ops).relocated <= 2 * Pushes(ops)
    ensures After(ops).size <= After(ops).capacity
  {
    hide After, Pushes;
    EveryRunPays(ops);
  }

  // ----- the vector -----

  class Vector<T> {
    /** Null in a moved-from vector. */
    var buffer: array?<Slot<T>>
    var size: nat
    const lifetime: Lifetime
    ghost var contents: seq<T>

    ghost predicate Valid()
      reads this, buffer
    {
      && size == |contents|
      && (buffer == null ==> size == 0)
      && (buffer != null ==> Holds(buffer, contents))
    }

    ghost function Growth(): Shape
      requires Valid()
      reads this, buffer, lifetime
    {
      Shape(size, GetCapacity(), lifetime.relocated)
    }

    constructor (lifetime: Lifetime)
      ensures Valid() && this.lifetime == lifetime && contents == [] && fresh(buffer)
      ensures Growth() == Shape(0, 1, lifetime.relocated) && GetCapacity() == 1
    {
      buffer := new Slot<T>[1](_ => Raw);
      size, this.lifetime, contents := 0, lifetime, [];
    }

    predicate Initialized()
      reads this
    {
      buffer != null
    }

    function GetSize(): nat
      reads this
    {
      if !Initialized() then 0 else size
    }

    function GetCapacity(): nat
      reads this
    {
      if !Initialized() then 0 else buffer.Length
    }

    function At(index: nat): (r: Result<T, string>)
      requires Valid()
      reads this, buffer
      ensures r == if index < |contents| then Success(contents[index]) else Failure("Index out of range")
    {
      if index >= GetSize() then Failure("Index out of range") else Success(buffer[index].value)
    }

    method Reserve(newCapacity: nat)
      requires Valid()
      modifies this, buffer, lifetime
      ensures Valid() && contents == old(contents)
      ensures GetCapacity() == if newCapacity <= old(GetCapacity()) then old(GetCapacity()) else newCapacity
      ensures Initialized() == (old(Initialized()) || newCapacity > 0)
      ensures lifetime.relocated ==
              old(lifetime.relocated) + if newCapacity <= old(GetCapacity()) then 0 else |contents|
      ensures buffer == old(buffer) || fresh(buffer)
      ensures lifetime.alive == old(lifetime.alive)
    {
      if newCapacity <= GetCapacity() {
        return;
      }
      var count := GetSize();
      var newBuffer := new Slot<T>[newCapacity](_ => Raw);
      for i := 0 to count
        modifies newBuffer, lifetime
        invariant Holds(newBuffer, contents[..i]) && lifetime.alive == old(lifetime.alive) + i
        invariant lifetime.relocated == old(lifetime.relocated) + i
        invariant buffer != null ==> Holds(buffer, contents)
      {
        ConstructAt(newBuffer, i, buffer[i].value, lifetime);
        lifetime.relocated := lifetime.relocated + 1;
      }
      assert contents[..count] == contents;
      for i := 0 to count
        modifies buffer, lifetime`alive
        invariant Holds(newBuffer, contents) && lifetime.alive == old(lifetime.alive) + count - i
        invariant buffer != null ==> forall j :: i <= j < count ==> buffer[j].Built?
      {
        DestroyAt(buffer, i, lifetime);
      }
      buffer := newBuffer;
    }

    /** Appends the referenced element, which may be one of the vector's own. */
    method PushBack(element: Reference<T>)
      requires Valid() && Live(element)
      modifies this, buffer, lifetime
      ensures Valid() && contents == old(contents) + [old(Read(element))]
      ensures Growth() == Pushed(old(Growth()))
      ensures GetCapacity() == if old(GetSize() < GetCapacity()) then old(GetCapacity())
                               else if |old(contents)| == 0 then 1 else 2 * |old(contents)|
      ensures lifetime.relocated ==
              old(lifetime.relocated) + if old(GetSize() < GetCapacity()) then 0 else |old(contents)|
      ensures if old(GetSize() < GetCapacity()) then buffer == old(buffer) else fresh(buffer)
      ensures lifetime.alive == old(lifetime.alive) + 1
    {
      ghost var value := Read(element);
      if GetSize() == GetCapacity() {
        var copy := Read(element);
        lifetime.alive := lifetime.alive + 1;
        Reserve(if GetCapacity() == 0 then 1 else GetCapacity() * 2);
        ConstructAt(buffer, size, copy, lifetime);
        lifetime.alive := lifetime.alive - 1;
      } else {
        ConstructAt(buffer, size, Read(element), lifetime);
      }
      size := size + 1;
      contents := contents + [value];
    }

    method PopBack() returns (r: Result<(), string>)
      requires Valid()
      modifies this, buffer, lifetime`alive
      ensures Valid() && buffer == old(buffer)
      ensures r.Success? <==> old(contents) != []
      ensures contents == if r.Success? then old(contents[..|contents| - 1]) else []
      ensures Growth() == Popped(old(Growth()))
      ensures lifetime.alive == old(lifetime.alive) + |contents| - |old(contents)|
    {
      if GetSize() == 0 {
        return Failure("No elements added");
      }
      size := size - 1;
      DestroyAt(buffer, size, lifetime);
      contents := contents[..size];
      r := Success(());
    }

    method Clear()
      requires Valid()
      modifies this, buffer, lifetime`alive
      ensures Valid() && contents == [] && buffer == old(buffer)
      ensures lifetime.alive == old(lifetime.alive) - |old(contents)|
    {
      while GetSize() > 0
        invariant Valid() && buffer == old(buffer)
        invariant lifetime.alive == old(lifetime.alive) + |contents| - |old(contents)|
        decreases size
      {
        var r := PopBack();
      }
    }

    /** Destroys what is here and copies the other vector's elements into a buffer of just their size. */
    method CopyFrom(other: Vector<T>)
      requires Valid() && other.Valid() && other != this && lifetime == other.lifetime
      requires buffer != null ==> buffer != other.buffer
      modifies this, buffer, lifetime`alive
      ensures Valid() && other.Valid() && contents == other.contents == old(other.contents) && fresh(buffer)
      ensures GetCapacity() == |contents|
      ensures lifetime.alive == old(lifetime.alive) + |contents| - |old(contents)|
    {
      var newBuffer := new Slot<T>[other.GetSize()](_ => Raw);
      var count := GetSize();
      for i := 0 to count
        modifies buffer, lifetime`alive
        invariant other.Valid() && Holds(newBuffer, []) && lifetime.alive == old(lifetime.alive) - i
        invariant buffer != null ==> forall j :: i <= j < count ==> buffer[j].Built?
      {
        DestroyAt(buffer, i, lifetime);
      }
      for i := 0 to other.GetSize()
        modifies newBuffer, lifetime`alive
        invariant other.Valid() && Holds(newBuffer, other.contents[..i])
                  && lifetime.alive == old(lifetime.alive) - count + i
      {
        var element := other.At(i);
        ConstructAt(newBuffer, i, element.value, lifetime);
      }
      buffer, size, contents := newBuffer, other.GetSize(), other.contents;
    }

    /** Ends the vector: its elements are destroyed, and it has no buffer any more. */
    method Destroy()
      requires Valid()
      modifies this, buffer, lifetime`alive
      ensures Valid() && contents == [] && !Initialized()
      ensures lifetime.alive == old(lifetime.alive) - |old(contents)|
    {
      if !Initialized() {
        return;
      }
      Clear();
      buffer := null;
    }

    constructor Copy(other: Vector<T>)
      requires other.Valid()
      modifies other.lifetime`alive
      ensures Valid() && other.Valid() && contents == other.contents && fresh(buffer) && lifetime == other.lifetime
      ensures GetCapacity() == |contents|
      ensures lifetime.alive == old(other.lifetime.alive) + |contents|
    {
      buffer, size, lifetime, contents := null, 0, other.lifetime, [];
      new;
      CopyFrom(other);
    }

    /** Assigns, unless the destination was moved from: then nothing happens. */
    method Assign(other: Vector<T>)
      requires Valid() && other.Valid() && lifetime == other.lifetime
      requires other != this && buffer != null ==> buffer != other.buffer
      modifies this, buffer, lifetime`alive
      ensures Valid() && other.Valid() && Initialized() == old(Initialized())
      ensures contents == if old(Initialized()) then old(other.contents) else []
      ensures contents == old(other.contents) <==> old(Initialized()) || old(other.contents) == []
      ensures other != this ==> other.contents == old(other.contents) && other.buffer == old(other.buffer)
      ensures if other != this && old(Initialized()) then fresh(buffer) && GetCapacity() == |contents|
              else buffer == old(buffer)
      ensures lifetime.alive == old(lifetime.alive) + |contents| - |old(contents)|
    {
      if this == other {
        return;
      }
      if !Initialized() {
        return;
      }
      CopyFrom(other);
    }

    method StealFrom(other: Vector<T>)
      requires other.Valid() && other != this && lifetime == other.lifetime
      modifies this, other
      ensures Valid() && contents == old(other.contents) && buffer == old(other.buffer)
      ensures other.Valid() && other.contents == [] && !other.Initialized()
    {
      buffer, size, contents := other.buffer, other.size, other.contents;
      other.buffer, other.size, other.contents := null, 0, [];
    }

    constructor Move(other: Vector<T>)
      requires other.Valid()
      modifies other
      ensures Valid() && contents == old(other.contents) && buffer == old(other.buffer) && lifetime == other.lifetime
      ensures other.Valid() && other.contents == [] && !other.Initialized()
    {
      buffer, size, lifetime, contents := null, 0, other.lifetime, [];
      new;
      StealFrom(other);
    }

    /** Moves, unless the destination was moved from: then both vectors stay as they are. */
    method MoveAssign(other: Vector<T>)
      requires Valid() && other.Valid() && lifetime == other.lifetime
      requires other != this && buffer != null ==> buffer != other.buffer
      modifies this, buffer, other, lifetime`alive
      ensures Valid() && other.Valid()
      ensures contents == if old(Initialized()) then old(other.contents) else []
      ensures contents == old(other.contents) <==> old(Initialized()) || old(other.contents) == []
      ensures if other == this || !old(Initialized())
              then buffer == old(buffer) && other.buffer == old(other.buffer) && other.contents == old(other.contents)
              else other.contents == [] && !other.Initialized() && buffer == old(other.buffer)
      ensures lifetime.alive == old(lifetime.alive) - if other == this then 0 else |old(contents)|
    {
      if this == other {
        return;
      }
      if !Initialized() {
        return;
      }
      Clear();
      StealFrom(other);
    }
  }

  method Perform<T>(v: Vector<T>, op: Op<T>)
    requires v.Valid()
    modifies v, v.buffer, v.lifetime
    ensures v.Valid() && v.Initialized() == (old(v.Initialized()) || op.Push?)
            && (v.buffer == old(v.buffer) || fresh(v.buffer))
    ensures v.contents == Applied(old(v.contents), op)
    ensures v.Growth() == Resized(old(v.Growth()), op)
    ensures v.lifetime.alive - |v.contents| == old(v.lifetime.alive - |v.contents|)
  {
    match op {
      case Push(value) => v.PushBack(Elsewhere(value));
      case PushOwn(i) =>
        if i < v.GetSize() {
          v.PushBack(InSlot(v.buffer, i));
        }
      case Pop => var r := v.PopBack();
    }
  }

  /** Any mix of insertions and removals acts as on a plain sequence and relocates at most two elements an insertion. */
  method Replay<T>(ops: seq<Op<T>>) returns (elements: seq<T>, alive: int, ghost relocated: nat)
    ensures elements == Plain(ops) && alive == |elements|
    ensures relocated <= 2 * Pushes(ops)
  {
    hide Applied, Resized, Pushes;
    var lifetime := new Lifetime();
    var v := new Vector<T>(lifetime);
    for n := 0 to |ops|
      invariant v.Valid() && v.lifetime == lifetime && fresh(lifetime) && fresh(v) && v.Initialized() && fresh(v.buffer)
      invariant v.contents == Plain(ops[..n]) && v.Growth() == After(ops[..n]) && lifetime.alive == |v.contents|
    {
      assert ops[..n + 1][..n] == ops[..n];
      Perform(v, ops[n]);
    }
    assert ops[..|ops|] == ops;
    AmortisedGrowth(ops);
    alive, relocated := lifetime.alive, lifetime.relocated;
    elements := [];
    for i := 0 to v.GetSize()
      invariant elements == v.contents[..i]
    {
      elements := elements + [v.At(i).value];
    }
  }
}
