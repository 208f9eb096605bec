/**
 Reference counting across threads. Every member function of the shared pointer is a list
 of tasks, every task a few atomic steps, and threads interleave these steps freely.
 Touching a deleted block, counting below zero, deleting twice or destroying a locked
 mutex raises `fault`.
 */
module SharedPointer {
  import opened Wrappers

  type Name = nat      // of a handle object
  type BlockId = nat   // of a control block and the object it was created with
  type Thread = nat

  /** The two fields of a handle: `ptr_` and `cb_`. */
  datatype Handle = Handle(ptr: Option<BlockId>, cb: Option<BlockId>)

  /** `hasObject` is false for a block made from a null pointer. `reaper` is the thread that counted down to zero. */
  datatype Block = Block(count: int, holder: Option<Thread>, hasObject: bool,
                         reaper: Option<Thread>, objectDeletes: nat, blockDeletes: nat)

  datatype Task = New(h: Name, hasObject: bool) | Copy(dst: Name, src: Name) | Swap(a: Name, b: Name)
                | Steal(dst: Name, src: Name) | Release(h: Name) | Look(h: Name)

  /** Why a thread wants the lock. */
  datatype Job = Increment(dst: Name, src: Name) | Decrement | Read(h: Name)

  datatype Phase = Ready | Waiting(b: BlockId, job: Job) | Locked(b: BlockId, job: Job)
                 | Unlocking(b: BlockId, free: bool)
                 | DeletingObject(b: BlockId) | DeletingBlock(b: BlockId)

  /** `changes` and `looksAt` are the handles of the member function in progress, `seen` the count it last read. */
  datatype Running = Running(todo: seq<Task>, phase: Phase, changes: set<Name>, looksAt: set<Name>, seen: int)

  /**
   `skipped` records the releases that returned at a null pointer, without counting, by the block their
   handle was on.
   */
  datatype State = State(blocks: map<BlockId, Block>, handles: map<Name, Handle>, threads: map<Thread, Running>,
                         next: BlockId, skipped: multiset<BlockId>, fault: bool)

  const NULL: Handle := Handle(None, None)

  function Get(handles: map<Name, Handle>, h: Name): Handle { if h in handles then handles[h] else NULL }

  // ----- member functions as task lists -----

  datatype Call =
    | Construct(h: Name, hasObject: bool)
    | CopyConstruct(h: Name, other: Name)
    | MoveConstruct(h: Name, other: Name)
    | CopyAssign(h: Name, other: Name, tmp: Name)
    | MoveAssign(h: Name, other: Name)
    | Reset(h: Name, hasObject: bool, tmp: Name, made: Name)
    | GetCount(h: Name)
    | Destroy(h: Name)

  function Tasks(call: Call): seq<Task> {
    match call
    case Construct(h, hasObject) => [New(h, hasObject)]
    case CopyConstruct(h, other) => [Copy(h, other)]
    case MoveConstruct(h, other) => [Steal(h, other)]
    case CopyAssign(h, other, tmp) => if h == other then [] else [Copy(tmp, other), Swap(h, tmp), Release(tmp)]
    case MoveAssign(h, other) => if h == other then [] else [Release(h), Steal(h, other)]
    case Reset(h, hasObject, tmp, made) =>
      (if hasObject then [New(made, true), Release(tmp), Steal(tmp, made), Release(made)] else []) +
      [Swap(h, tmp), Release(tmp)]
    case GetCount(h) => [Look(h)]
    case Destroy(h) => [Release(h)]
  }

  function Writes(call: Call): set<Name> {
    match call
    case Construct(h, _) => {h}
    case CopyConstruct(h, _) => {h}
    case MoveConstruct(h, other) => {h, other}
    case CopyAssign(h, _, tmp) => {h, tmp}
    case MoveAssign(h, other) => {h, other}
    case Reset(h, _, tmp, made) => {h, tmp, made}
    case GetCount(_) => {}
    case Destroy(h) => {h}
  }

  function Reads(call: Call): set<Name> {
    match call
    case CopyConstruct(_, other) => {other}
    case CopyAssign(_, other, _) => {other}
    case GetCount(h) => {h}
    case _ => {}
  }

  /** Objects under construction, and temporaries, are new names; arguments are other objects. */
  predicate NamesFit(call: Call, handles: map<Name, Handle>) {
    match call
    case Construct(h, _) => Get(handles, h) == NULL
    case CopyConstruct(h, other) => Get(handles, h) == NULL && h != other
    case MoveConstruct(h, other) => Get(handles, h) == NULL && h != other
    case CopyAssign(h, other, tmp) => Get(handles, tmp) == NULL && tmp != h && tmp != other
    case MoveAssign(_, _) => true
    case Reset(h, _, tmp, made) =>
      Get(handles, tmp) == NULL && Get(handles, made) == NULL && h != tmp && h != made && tmp != made
    case GetCount(_) => true
    case Destroy(_) => true
  }

  // ----- steps -----

  datatype Action = Begin(t: Thread, call: Call) | Run(t: Thread)

  /** Inside a member function. */
  predicate Busy(r: Running) { r.phase != Ready || r.todo != [] }

  /** No handle is written by one thread while another is inside a member function that uses it. */
  ghost predicate MayBegin(s: State, t: Thread, call: Call) {
    && (t in s.threads ==> !Busy(s.threads[t]))
    && NamesFit(call, s.handles)
    && forall u :: u in s.threads && u != t && Busy(s.threads[u]) ==>
         && Writes(call) !! s.threads[u].changes + s.threads[u].looksAt
         && Reads(call) !! s.threads[u].changes
  }

  function At(s: State, t: Thread, phase: Phase): State
    requires t in s.threads
  {
    s.(threads := s.threads[t := s.threads[t].(phase := phase)])
  }

  function DoTask(s: State, t: Thread): State
    requires t in s.threads && s.threads[t].todo != []
  {
    var task := s.threads[t].todo[0];
    var s := s.(threads := s.threads[t := s.threads[t].(todo := s.threads[t].todo[1..])]);
    match task
    case New(h, hasObject) =>
      var b := s.next;
      s.(blocks := s.blocks[b := Block(1, None, hasObject, None, 0, 0)], next := b + 1,
         handles := s.handles[h := Handle(if hasObject then Some(b) else None, Some(b))])
    case Copy(dst, src) =>
      var v := Get(s.handles, src);
      var s := s.(handles := s.handles[dst := v]);
      if v.cb.None? then s else At(s, t, Waiting(v.cb.value, Increment(dst, src)))
    case Swap(a, b) =>
      s.(handles := s.handles[a := Get(s.handles, b)][b := Get(s.handles, a)])
    case Steal(dst, src) =>
      s.(handles := s.handles[dst := Get(s.handles, src)][src := NULL])
    case Release(h) =>
      var v := Get(s.handles, h);
      var s := s.(handles := s.handles[h := NULL]);
      if v.ptr.None? then (if v.cb.None? then s else s.(skipped := s.skipped + multiset{v.cb.value}))
      else if v.cb.None? then s.(fault := true)
      else At(s, t, Waiting(v.cb.value, Decrement))
    case Look(h) =>
      var v := Get(s.handles, h);
      if v.cb.None? then s else At(s, t, Waiting(v.cb.value, Read(h)))
  }

  function RunThread(s: State, t: Thread): State
    requires t in s.threads
  {
    var phase := s.threads[t].phase;
    if phase == Ready then (if s.threads[t].todo == [] then s else DoTask(s, t))
    else if phase.b !in s.blocks || s.blocks[phase.b].blockDeletes > 0 then s.(fault := true)
    else
      var b, block := phase.b, s.blocks[phase.b];
      match phase
      case Waiting(_, job) =>
        if block.holder.Some? then s
        else At(s.(blocks := s.blocks[b := block.(holder := Some(t))]), t, Locked(b, job))
      case Locked(_, job) =>
        if job.Increment? then
          At(s.(blocks := s.blocks[b := block.(count := block.count + 1)]), t, Unlocking(b, false))
        else if job.Decrement? then
          if block.count == 0 then s.(fault := true) else
          var free := block.count - 1 == 0;
          var reaper := if free then Some(t) else block.reaper;
          At(s.(blocks := s.blocks[b := block.(count := block.count - 1, reaper := reaper)]), t, Unlocking(b, free))
        else s.(threads := s.threads[t := s.threads[t].(phase := Unlocking(b, false), seen := block.count)])
      case Unlocking(_, free) =>
        At(s.(blocks := s.blocks[b := block.(holder := None)]), t, if free then DeletingObject(b) else Ready)
      case DeletingObject(_) =>
        if block.objectDeletes > 0 then s.(fault := true)
        else At(s.(blocks := s.blocks[b := block.(objectDeletes := 1)]), t, DeletingBlock(b))
      case DeletingBlock(_) =>
        if block.holder.Some? then s.(fault := true)
        else At(s.(blocks := s.blocks[b := block.(blockDeletes := 1)]), t, Ready)
  }

  ghost function Do(s: State, action: Action): State {
    match action
    case Begin(t, call) =>
      var r := Running(Tasks(call), Ready, Writes(call), Reads(call), 0);
      if MayBegin(s, t, call) then s.(threads := s.threads[t := r]) else s
    case Run(t) => if t in s.threads then RunThread(s, t) else s
  }

  /** The state after any interleaving of threads. */
  ghost function After(actions: seq<Action>): State {
    if actions == [] then State(map[], map[], map[], 0, multiset{}, false)
    else Do(After(actions[..|actions| - 1]), actions[|actions| - 1])
  }

  /**
   Handles pass from thread to thread between calls: when nobody is inside a member function, any thread
   may begin any call.
   */
  lemma HandOver(s: State, t: Thread, call: Call)
    requires forall u :: u in s.threads ==> !Busy(s.threads[u])
    ensures MayBegin(s, t, call) <==> NamesFit(call, s.handles)
    ensures NamesFit(call, s.handles) ==>
            t in Do(s, Begin(t, call)).threads && Do(s, Begin(t, call)).threads[t].todo == Tasks(call)
  {
  }

  // ----- counting -----

  ghost function Where<K(!new), V(!new)>(m: map<K, V>, p: V -> bool): set<K> {
    set k | k in m && p(m[k])
  }

  ghost function CountIf<K(!new), V(!new)>(m: map<K, V>, p: V -> bool): nat { |Where(m, p)| }

  lemma OneElementMoves<K>(before: set<K>, later: set<K>, k: K)
    requires before - {k} == later - {k}
    ensures |later| == |before| - (if k in before then 1 else 0) + (if k in later then 1 else 0)
  {
    if k in before { assert before == (before - {k}) + {k}; } else { assert before == before - {k}; }
    if k in later { assert later == (later - {k}) + {k}; } else { assert later == later - {k}; }
  }

  lemma WhereUpdate<K(!new), V(!new)>(m: map<K, V>, k: K, v: V, p: V -> bool)
    ensures Where(m, p) - {k} == Where(m[k := v], p) - {k}
    ensures k in Where(m[k := v], p) <==> p(v)
  {
  }

  lemma CountUpdate<K(!new), V(!new)>(m: map<K, V>, k: K, v: V, p: V -> bool)
    ensures CountIf(m[k := v], p) ==
            CountIf(m, p) - (if k in m && p(m[k]) then 1 else 0) + (if p(v) then 1 else 0)
  {
    assert k in Where(m, p) <==> k in m && p(m[k]);
    WhereUpdate(m, k, v, p);
    hide Where;
    OneElementMoves(Where(m, p), Where(m[k := v], p), k);
  }

  ghost function Holds(b: BlockId): Handle -> bool { (v: Handle) => v.cb == Some(b) }
  ghost function Copies(b: BlockId): Running -> bool {
    (r: Running) => (r.phase.Waiting? || r.phase.Locked?) && r.phase.b == b && r.phase.job.Increment?
  }
  ghost function Releases(b: BlockId): Running -> bool {
    (r: Running) => (r.phase.Waiting? || r.phase.Locked?) && r.phase.b == b && r.phase.job.Decrement?
  }

  /** Handles on `b`; copies not yet incremented; releases not yet decremented. */
  ghost function Holding(s: State, b: BlockId): nat { CountIf(s.handles, Holds(b)) }
  ghost function Copying(s: State, b: BlockId): nat { CountIf(s.threads, Copies(b)) }
  ghost function Releasing(s: State, b: BlockId): nat { CountIf(s.threads, Releases(b)) }

  // ----- the invariant -----

  /** The reaper of `b` is still at work on it. */
  ghost predicate Reaping(b: BlockId, phase: Phase) {
    phase == Unlocking(b, true) || phase == DeletingObject(b) || phase == DeletingBlock(b)
  }

  ghost predicate InLock(b: BlockId, phase: Phase) {
    (phase.Locked? || phase.Unlocking?) && phase.b == b
  }

  ghost function PhaseOf(s: State, t: Thread): Phase { if t in s.threads then s.threads[t].phase else Ready }

  ghost predicate BlockInv(s: State, b: BlockId)
    requires b in s.blocks
  {
    var block := s.blocks[b];
    && (block.holder.Some? ==> InLock(b, PhaseOf(s, block.holder.value)))
    && block.count + Copying(s, b) == Holding(s, b) + Releasing(s, b) + s.skipped[b]
    && if block.hasObject then
         && block.count >= 0 && s.skipped[b] == 0
         && (block.count == 0 <==> block.reaper.Some?)
         && (block.reaper.None? ==> block.objectDeletes == 0 && block.blockDeletes == 0)
         && (block.reaper.Some? ==>
               var phase := PhaseOf(s, block.reaper.value);
               && Copying(s, b) == 0
               && (phase == Unlocking(b, true) ==> block.holder == block.reaper)
               && (phase != Unlocking(b, true) ==> block.holder.None?)
               && block.objectDeletes == (if phase == Unlocking(b, true) || phase == DeletingObject(b) then 0 else 1)
               && block.blockDeletes == (if Reaping(b, phase) then 0 else 1))
       else
         && block.count > 0 && Releasing(s, b) == 0
         && block.reaper.None? && block.objectDeletes == 0 && block.blockDeletes == 0
  }

  ghost predicate HandleInv(blocks: map<BlockId, Block>, v: Handle) {
    if v.cb.None? then v.ptr.None?
    else v.cb.value in blocks && v.ptr == if blocks[v.cb.value].hasObject then v.cb else None
  }

  ghost predicate PhaseInv(s: State, t: Thread)
    requires t in s.threads
  {
    var r := s.threads[t];
    r.phase != Ready ==>
      var b := r.phase.b;
      && b in s.blocks
      && (InLock(b, r.phase) ==> s.blocks[b].holder == Some(t))
      && (Reaping(b, r.phase) ==> s.blocks[b].reaper == Some(t))
      && (r.phase.Waiting? || r.phase.Locked? ==>
            match r.phase.job
            case Increment(dst, src) =>
              && dst in r.changes && src in r.changes + r.looksAt && dst != src
              && Get(s.handles, dst).cb == Get(s.handles, src).cb == Some(b)
            case Decrement => s.blocks[b].hasObject
            case Read(h) => h in r.changes + r.looksAt && Get(s.handles, h).cb == Some(b))
  }

  ghost function NullIn(handles: map<Name, Handle>, names: set<Name>): set<Name> {
    set h | h in names && Get(handles, h) == NULL
  }

  ghost predicate TaskFits(task: Task, nulls: set<Name>, changes: set<Name>, looksAt: set<Name>) {
    match task
    case New(h, _) => h in changes && h in nulls
    case Copy(dst, src) => dst in changes && dst in nulls && src in changes + looksAt && src != dst
    case Swap(a, b) => a in changes && b in changes && a != b
    case Steal(dst, src) => dst in changes && dst in nulls && src in changes && src != dst
    case Release(h) => h in changes
    case Look(h) => h in changes + looksAt
  }

  /** Handles that are surely null after a task, given those that are before it. */
  ghost function StillNull(task: Task, nulls: set<Name>): set<Name> {
    match task
    case New(h, _) => nulls - {h}
    case Copy(dst, _) => nulls - {dst}
    case Swap(a, b) => nulls - {a, b} + (if a in nulls then {b} else {}) + (if b in nulls then {a} else {})
    case Steal(dst, src) => nulls - {dst} + {src}
    case Release(h) => nulls + {h}
    case Look(_) => nulls
  }

  /** The remaining tasks stay within the call's handles and only fill handles that are null by then. */
  ghost predicate Fits(todo: seq<Task>, nulls: set<Name>, changes: set<Name>, looksAt: set<Name>)
    decreases |todo|
  {
    todo == [] || (TaskFits(todo[0], nulls, changes, looksAt)
        && Fits(todo[1..], StillNull(todo[0], nulls), changes, looksAt))
  }

  ghost predicate TodoInv(handles: map<Name, Handle>, r: Running) {
    Fits(r.todo, NullIn(handles, r.changes), r.changes, r.looksAt)
  }

  ghost predicate Separate(threads: map<Thread, Running>) {
    forall t, u :: t in threads && u in threads && t != u && Busy(threads[t]) && Busy(threads[u]) ==>
      threads[t].changes !! threads[u].changes + threads[u].looksAt
  }

  ghost predicate Inv(s: State) {
    && !s.fault
    && (forall b :: b in s.blocks ==> b < s.next && BlockInv(s, b))
    && (forall b :: b in s.skipped ==> b in s.blocks)
    && (forall h :: h in s.handles ==> HandleInv(s.blocks, s.handles[h]))
    && (forall t :: t in s.threads ==> PhaseInv(s, t) && TodoInv(s.handles, s.threads[t]))
    && Separate(s.threads)
  }

  lemma {:induction false} FitsMore(todo: seq<Task>, nulls: set<Name>, more: set<Name>, changes: set<Name>,
                                    looksAt: set<Name>)
    requires Fits(todo, nulls, changes, looksAt) && nulls <= more
    ensures Fits(todo, more, changes, looksAt)
    decreases |todo|
  {
    if todo != [] {
      FitsMore(todo[1..], StillNull(todo[0], nulls), StillNull(todo[0], more), changes, looksAt);
    }
  }

  lemma FitsCons(task: Task, rest: seq<Task>, nulls: set<Name>, changes: set<Name>, looksAt: set<Name>)
    requires TaskFits(task, nulls, changes, looksAt) && Fits(rest, StillNull(task, nulls), changes, looksAt)
    ensures Fits([task] + rest, nulls, changes, looksAt)
  {
  }

  /** Every member function respects its own handles, whatever they hold when it starts. */
  lemma CallFits(call: Call, handles: map<Name, Handle>)
    requires NamesFit(call, handles)
    ensures Fits(Tasks(call), NullIn(handles, Writes(call)), Writes(call), Reads(call))
  {
    var nulls, tasks, changes, looksAt := NullIn(handles, Writes(call)), Tasks(call), Writes(call), Reads(call);
    match call {
      case CopyAssign(h, other, tmp) =>
        if h != other {
          var n := StillNull(Copy(tmp, other), nulls);
          FitsCons(Release(tmp), [], StillNull(Swap(h, tmp), n), changes, looksAt);
          FitsCons(Swap(h, tmp), [Release(tmp)], n, changes, looksAt);
          FitsCons(Copy(tmp, other), [Swap(h, tmp), Release(tmp)], nulls, changes, looksAt);
          assert tasks == [Copy(tmp, other)] + [Swap(h, tmp), Release(tmp)];
        }
      case MoveAssign(h, other) =>
        if h != other {
          FitsCons(Steal(h, other), [], StillNull(Release(h), nulls), changes, looksAt);
          FitsCons(Release(h), [Steal(h, other)], nulls, changes, looksAt);
          assert tasks == [Release(h)] + [Steal(h, other)];
        }
      case Reset(h, hasObject, tmp, made) =>
        ResetFits(h, hasObject, tmp, made, nulls);
      case _ =>
        FitsCons(tasks[0], [], nulls, changes, looksAt);
    }
  }

  lemma ResetFits(h: Name, hasObject: bool, tmp: Name, made: Name, nulls: set<Name>)
    requires h != tmp && h != made && tmp != made && {tmp, made} <= nulls
    ensures Fits(Tasks(Reset(h, hasObject, tmp, made)), nulls, {h, tmp, made}, {})
  {
    var all := {h, tmp, made};
    forall n: set<Name> ensures Fits([Swap(h, tmp), Release(tmp)], n, all, {}) {
      FitsCons(Release(tmp), [], StillNull(Swap(h, tmp), n), all, {});
      FitsCons(Swap(h, tmp), [Release(tmp)], n, all, {});
      assert [Swap(h, tmp), Release(tmp)] == [Swap(h, tmp)] + [Release(tmp)];
    }
    var swap := [Swap(h, tmp), Release(tmp)];
    if hasObject {
      var n1 := StillNull(New(made, true), nulls);
      var n2 := StillNull(Release(tmp), n1);
      var n3 := StillNull(Steal(tmp, made), n2);
      FitsCons(Release(made), swap, n3, all, {});
      FitsCons(Steal(tmp, made), [Release(made)] + swap, n2, all, {});
      FitsCons(Release(tmp), [Steal(tmp, made)] + ([Release(made)] + swap), n1, all, {});
      FitsCons(New(made, true), [Release(tmp)] + ([Steal(tmp, made)] + ([Release(made)] + swap)), nulls, all, {});
      assert Tasks(Reset(h, hasObject, tmp, made)) ==
          [New(made, true)] + ([Release(tmp)] + ([Steal(tmp, made)] + ([Release(made)] + swap)));
    } else {
      assert [] + swap == swap;
    }
  }

  // ----- what a reference to a block guarantees -----

  lemma CountPositive<K(!new), V(!new)>(m: map<K, V>, k: K, p: V -> bool)
    requires k in m && p(m[k])
    ensures CountIf(m, p) > 0
  {
    assert k in Where(m, p);
  }

  ghost function Image(keys: set<Thread>, f: map<Thread, Name>): set<Name>
    requires keys <= f.Keys
  {
    set k | k in keys :: f[k]
  }

  lemma {:induction false} ImageSize(keys: set<Thread>, f: map<Thread, Name>)
    requires keys <= f.Keys
    requires forall j, k :: j in keys && k in keys && j != k ==> f[j] != f[k]
    ensures |Image(keys, f)| == |keys|
  {
    if keys != {} {
      var k :| k in keys;
      ImageSize(keys - {k}, f);
      assert Image(keys, f) == Image(keys - {k}, f) + {f[k]} && f[k] !in Image(keys - {k}, f);
    }
  }

  lemma SubsetSize<T>(a: set<T>, b: set<T>)
    requires a <= b
    ensures |a| <= |b|
  {
    assert b == a + (b - a);
  }

  lemma CopierHolds(s: State, t: Thread, b: BlockId)
    requires t in s.threads && PhaseInv(s, t) && Copies(b)(s.threads[t])
    ensures var job := s.threads[t].phase.job;
      && job.dst in s.threads[t].changes && job.src in s.threads[t].changes + s.threads[t].looksAt && job.dst != job.src
      && job.dst in Where(s.handles, Holds(b)) && job.src in Where(s.handles, Holds(b))
  {
  }

  /** A copy in progress has its destination and its source on the block, and no two share a destination. */
  lemma CopiesAreHeld(s: State, b: BlockId)
    requires Inv(s)
    ensures Copying(s, b) > 0 ==> Holding(s, b) > Copying(s, b)
  {
    var copiers, holders := Where(s.threads, Copies(b)), Where(s.handles, Holds(b));
    if copiers != {} {
      forall t | t in copiers
        ensures t in s.threads && PhaseInv(s, t) && Copies(b)(s.threads[t])
      {
      }
      DistinctDestinations(s, b, copiers, holders);
    }
  }

  lemma DistinctDestinations(s: State, b: BlockId, copiers: set<Thread>, holders: set<Name>)
    requires copiers != {} && holders == Where(s.handles, Holds(b)) && Separate(s.threads)
    requires forall t :: t in copiers ==> t in s.threads && PhaseInv(s, t) && Copies(b)(s.threads[t])
    ensures |holders| > |copiers|
  {
    hide PhaseInv, Where;
    forall t | t in copiers
      ensures s.threads[t].phase.job.dst in s.threads[t].changes && s.threads[t].phase.job.dst in holders
    {
      CopierHolds(s, t, b);
    }
    var dst := map t | t in copiers :: s.threads[t].phase.job.dst;
    var t :| t in copiers;
    CopierHolds(s, t, b);
    var src := s.threads[t].phase.job.src;
    assert forall u :: u in copiers ==> dst[u] != src;
    assert forall u, v :: u in copiers && v in copiers && u != v ==> dst[u] != dst[v];
    OneMoreThanImage(copiers, dst, src, holders);
  }

  lemma OneMoreThanImage(keys: set<Thread>, f: map<Thread, Name>, extra: Name, all: set<Name>)
    requires keys == f.Keys && extra in all
    requires forall k :: k in keys ==> f[k] in all && f[k] != extra
    requires forall j, k :: j in keys && k in keys && j != k ==> f[j] != f[k]
    ensures |all| > |keys|
  {
    var image := Image(keys, f);
    ImageSize(keys, f);
    assert |image + {extra}| == |image| + 1;
    SubsetSize(image + {extra}, all);
  }

  /** Whoever waits for or works under the lock of a block keeps it alive. */
  lemma ReferencedBlock(s: State, t: Thread)
    requires Inv(s) && t in s.threads
    requires s.threads[t].phase.Waiting? || s.threads[t].phase.Locked?
    ensures var block := s.blocks[s.threads[t].phase.b];
      block.reaper.None? && block.objectDeletes == 0 && block.blockDeletes == 0 && block.count > 0
  {
    var b, job := s.threads[t].phase.b, s.threads[t].phase.job;
    assert PhaseInv(s, t) && BlockInv(s, b);
    if job.Increment? {
      CountPositive(s.threads, t, Copies(b));
      CountPositive(s.handles, job.dst, Holds(b));
    } else if job.Decrement? {
      CountPositive(s.threads, t, Releases(b));
    } else {
      CountPositive(s.handles, job.h, Holds(b));
    }
  }

  // ----- frames -----

  ghost predicate Quiet(b: BlockId, phase: Phase) { !InLock(b, phase) && !Reaping(b, phase) }

  ghost predicate SameCounts(s: State, s': State, b: BlockId) {
    Holding(s', b) == Holding(s, b) && Copying(s', b) == Copying(s, b) && Releasing(s', b) == Releasing(s, b)
        && s'.skipped[b] == s.skipped[b]
  }

  ghost predicate OthersSame(s: State, s': State, t: Thread) {
    && t in s'.threads && s'.threads.Keys == s.threads.Keys + {t}
    && forall u :: u in s.threads && u != t ==> s'.threads[u] == s.threads[u]
  }

  lemma BlockFrame(s: State, s': State, t: Thread, b: BlockId)
    requires b in s.blocks && BlockInv(s, b)
    requires b in s'.blocks && s'.blocks[b] == s.blocks[b] && SameCounts(s, s', b) && OthersSame(s, s', t)
    requires Quiet(b, PhaseOf(s, t)) && Quiet(b, PhaseOf(s', t))
    ensures BlockInv(s', b)
  {
  }

  /** What another thread relies on. */
  lemma ThreadFrame(s: State, s': State, t: Thread, u: Thread)
    requires OthersSame(s, s', t) && u in s.threads && u != t
    requires PhaseInv(s, u) && TodoInv(s.handles, s.threads[u])
    requires forall b :: b in s.blocks ==> b in s'.blocks && s'.blocks[b].hasObject == s.blocks[b].hasObject
    requires forall b :: b in s.blocks && s.blocks[b].holder == Some(u) ==> s'.blocks[b].holder == Some(u)
    requires forall b :: b in s.blocks && s.blocks[b].reaper == Some(u) ==> s'.blocks[b].reaper == Some(u)
    requires Busy(s.threads[u]) ==> forall h :: h in s.threads[u].changes + s.threads[u].looksAt ==>
             Get(s'.handles, h) == Get(s.handles, h)
    ensures PhaseInv(s', u) && TodoInv(s'.handles, s'.threads[u])
  {
    if Busy(s.threads[u]) {
      assert NullIn(s'.handles, s.threads[u].changes) == NullIn(s.handles, s.threads[u].changes);
    }
  }

  // ----- steps under the lock keep the invariant -----

  /** A step that changes one thread's phase and that phase's block only. */
  ghost predicate LocalStep(s: State, s': State, t: Thread, b: BlockId, phase: Phase) {
    && t in s.threads && b in s.blocks && s.threads[t].phase != Ready && s.threads[t].phase.b == b
    && b in s'.blocks && s'.blocks == s.blocks[b := s'.blocks[b]] && s'.handles == s.handles && s'.next == s.next
        && s'.skipped == s.skipped && !s'.fault
    && t in s'.threads && s'.threads == s.threads[t := s'.threads[t]]
    && s'.threads[t] == s.threads[t].(phase := phase, seen := s'.threads[t].seen)
    && (phase != Ready ==> phase.b == b)
    && s'.blocks[b].hasObject == s.blocks[b].hasObject
  }

  lemma LocalStepKeeps(s: State, s': State, t: Thread, b: BlockId, phase: Phase)
    requires Inv(s) && LocalStep(s, s', t, b, phase)
    requires s.blocks[b].holder.Some? && s'.blocks[b].holder != s.blocks[b].holder ==> s.blocks[b].holder == Some(t)
    requires s.blocks[b].reaper.Some? && s'.blocks[b].reaper != s.blocks[b].reaper ==> s.blocks[b].reaper == Some(t)
    requires BlockInv(s', b) && PhaseInv(s', t)
    ensures Inv(s')
  {
    hide CountIf, Fits, PhaseInv, BlockInv, Copies, Releases;
    forall c | c in s'.blocks ensures c < s'.next && BlockInv(s', c) {
      if c != b {
        OtherBlock(s, s', t, b, phase, c);
      }
    }
    forall u | u in s'.threads ensures PhaseInv(s', u) && TodoInv(s'.handles, s'.threads[u]) {
      if u != t {
        OtherThread(s, s', t, b, phase, u);
      }
    }
  }

  lemma OtherBlock(s: State, s': State, t: Thread, b: BlockId, phase: Phase, c: BlockId)
    requires LocalStep(s, s', t, b, phase) && c in s.blocks && c != b && BlockInv(s, c)
    ensures c in s'.blocks && BlockInv(s', c)
  {
    hide CountIf, BlockInv;
    CountUpdate(s.threads, t, s'.threads[t], Copies(c));
    CountUpdate(s.threads, t, s'.threads[t], Releases(c));
    BlockFrame(s, s', t, c);
  }

  lemma OtherThread(s: State, s': State, t: Thread, b: BlockId, phase: Phase, u: Thread)
    requires LocalStep(s, s', t, b, phase) && u in s.threads && u != t && PhaseInv(s, u)
             && TodoInv(s.handles, s.threads[u])
    requires s.blocks[b].holder.Some? && s'.blocks[b].holder != s.blocks[b].holder ==> s.blocks[b].holder == Some(t)
    requires s.blocks[b].reaper.Some? && s'.blocks[b].reaper != s.blocks[b].reaper ==> s.blocks[b].reaper == Some(t)
    ensures PhaseInv(s', u) && TodoInv(s'.handles, s'.threads[u])
  {
  }

  lemma RunUnderLock(s: State, t: Thread)
    requires Inv(s) && t in s.threads && s.threads[t].phase != Ready
    ensures Inv(RunThread(s, t))
  {
    var phase := s.threads[t].phase;
    assert PhaseInv(s, t);
    var b := phase.b;
    assert BlockInv(s, b);
    match phase {
      case Waiting(_, job) => TakeLock(s, t);
      case Locked(_, job) => WorkLocked(s, t);
      case Unlocking(_, free) => LeaveLock(s, t);
      case DeletingObject(_) => DeleteObject(s, t);
      case DeletingBlock(_) => DeleteBlock(s, t);
    }
  }

  lemma PhaseCounts(s: State, s': State, t: Thread, b: BlockId, phase: Phase)
    requires LocalStep(s, s', t, b, phase)
    ensures Holding(s', b) == Holding(s, b)
    ensures Copying(s', b) == Copying(s, b) - (if Copies(b)(s.threads[t]) then 1 else 0)
                                            + (if Copies(b)(s'.threads[t]) then 1 else 0)
    ensures Releasing(s', b) == Releasing(s, b) - (if Releases(b)(s.threads[t]) then 1 else 0)
                                                + (if Releases(b)(s'.threads[t]) then 1 else 0)
  {
    CountUpdate(s.threads, t, s'.threads[t], Copies(b));
    CountUpdate(s.threads, t, s'.threads[t], Releases(b));
  }

  lemma TakeLock(s: State, t: Thread)
    requires Inv(s) && t in s.threads && s.threads[t].phase.Waiting?
    ensures Inv(RunThread(s, t))
  {
    hide CountIf, Fits, HandleInv, TodoInv, Separate, DoTask;
    var b, s' := s.threads[t].phase.b, RunThread(s, t);
    assert PhaseInv(s, t) && BlockInv(s, b);
    ReferencedBlock(s, t);
    if s.blocks[b].holder.None? {
      var phase := Locked(b, s.threads[t].phase.job);
      PhaseCounts(s, s', t, b, phase);
      LocalStepKeeps(s, s', t, b, phase);
    }
  }

  lemma WorkLocked(s: State, t: Thread)
    requires Inv(s) && t in s.threads && s.threads[t].phase.Locked?
    ensures Inv(RunThread(s, t))
  {
    hide CountIf, Fits, HandleInv, TodoInv, Separate, DoTask;
    var b, s' := s.threads[t].phase.b, RunThread(s, t);
    assert PhaseInv(s, t) && BlockInv(s, b);
    ReferencedBlock(s, t);
    CopiesAreHeld(s, b);
    var phase := s'.threads[t].phase;
    PhaseCounts(s, s', t, b, phase);
    LocalStepKeeps(s, s', t, b, phase);
  }

  lemma LeaveLock(s: State, t: Thread)
    requires Inv(s) && t in s.threads && s.threads[t].phase.Unlocking?
    ensures Inv(RunThread(s, t))
  {
    hide CountIf, Fits, HandleInv, TodoInv, Separate, DoTask;
    var b, s' := s.threads[t].phase.b, RunThread(s, t);
    assert PhaseInv(s, t) && BlockInv(s, b);
    var phase := s'.threads[t].phase;
    PhaseCounts(s, s', t, b, phase);
    LocalStepKeeps(s, s', t, b, phase);
  }

  lemma DeleteObject(s: State, t: Thread)
    requires Inv(s) && t in s.threads && s.threads[t].phase.DeletingObject?
    ensures Inv(RunThread(s, t))
  {
    hide CountIf, Fits, HandleInv, TodoInv, Separate, DoTask;
    var b, s' := s.threads[t].phase.b, RunThread(s, t);
    assert PhaseInv(s, t) && BlockInv(s, b);
    PhaseCounts(s, s', t, b, DeletingBlock(b));
    LocalStepKeeps(s, s', t, b, DeletingBlock(b));
  }

  lemma DeleteBlock(s: State, t: Thread)
    requires Inv(s) && t in s.threads && s.threads[t].phase.DeletingBlock?
    ensures Inv(RunThread(s, t))
  {
    hide CountIf, Fits, HandleInv, TodoInv, Separate, DoTask;
    var b, s' := s.threads[t].phase.b, RunThread(s, t);
    assert PhaseInv(s, t) && BlockInv(s, b);
    PhaseCounts(s, s', t, b, Ready);
    LocalStepKeeps(s, s', t, b, Ready);
  }

  // ----- tasks keep the invariant -----

  /** A task starts: its thread was ready, and only handles the call may change have changed. */
  ghost predicate TaskStep(s: State, s': State, t: Thread, phase: Phase) {
    && t in s.threads && s.threads[t].phase == Ready && s.threads[t].todo != [] && !s'.fault
    && (phase == Ready || phase.Waiting?)
    && s'.threads == s.threads[t := s.threads[t].(todo := s.threads[t].todo[1..], phase := phase)]
    && (forall b :: b in s.blocks ==> b in s'.blocks && s'.blocks[b] == s.blocks[b])
    && (forall h :: h !in s.threads[t].changes ==> Get(s'.handles, h) == Get(s.handles, h))
  }

  lemma TaskKeeps(s: State, s': State, t: Thread, phase: Phase)
    requires Inv(s) && TaskStep(s, s', t, phase)
    requires forall b :: b in s'.blocks ==> b < s'.next && BlockInv(s', b)
    requires forall b :: b in s'.skipped ==> b in s'.blocks
    requires forall h :: h in s'.handles ==> HandleInv(s'.blocks, s'.handles[h])
    requires PhaseInv(s', t)
    requires StillNull(s.threads[t].todo[0], NullIn(s.handles, s.threads[t].changes)) <=
             NullIn(s'.handles, s.threads[t].changes)
    ensures Inv(s')
  {
    hide CountIf, Fits, PhaseInv, BlockInv, HandleInv, StillNull, TaskFits;
    var r := s.threads[t];
    assert TodoInv(s.handles, r);
    TodoShrinks(s, s', t, phase);
    forall u | u in s'.threads ensures PhaseInv(s', u) && TodoInv(s'.handles, s'.threads[u]) {
      if u != t {
        hide TodoInv;
        ThreadFrame(s, s', t, u);
      }
    }
  }

  lemma TodoShrinks(s: State, s': State, t: Thread, phase: Phase)
    requires TaskStep(s, s', t, phase) && TodoInv(s.handles, s.threads[t])
    requires StillNull(s.threads[t].todo[0], NullIn(s.handles, s.threads[t].changes)) <=
             NullIn(s'.handles, s.threads[t].changes)
    ensures TodoInv(s'.handles, s'.threads[t])
  {
    var r := s.threads[t];
    var nulls := StillNull(r.todo[0], NullIn(s.handles, r.changes));
    FitsMore(r.todo[1..], nulls, NullIn(s'.handles, r.changes), r.changes, r.looksAt);
  }

  /** A block stays consistent when handles gained, copies begun and releases begun balance. */
  lemma BlockBalance(s: State, s': State, t: Thread, phase: Phase, b: BlockId)
    requires TaskStep(s, s', t, phase) && b in s.blocks && BlockInv(s, b)
    requires Holding(s', b) + Releasing(s', b) - Copying(s', b) + s'.skipped[b] ==
             Holding(s, b) + Releasing(s, b) - Copying(s, b) + s.skipped[b]
    requires s'.skipped[b] == s.skipped[b] || !s.blocks[b].hasObject
    requires Copying(s', b) == Copying(s, b) || s.blocks[b].reaper.None?
    requires Releasing(s', b) == Releasing(s, b) || s.blocks[b].hasObject
    ensures BlockInv(s', b)
  {
  }

  lemma TaskCounts(s: State, s': State, t: Thread, phase: Phase, b: BlockId)
    requires TaskStep(s, s', t, phase)
    ensures Copying(s', b) == Copying(s, b) + if phase.Waiting? && phase.b == b && phase.job.Increment? then 1 else 0
    ensures Releasing(s', b) ==
            Releasing(s, b) + if phase.Waiting? && phase.b == b && phase.job.Decrement? then 1 else 0
  {
    CountUpdate(s.threads, t, s'.threads[t], Copies(b));
    CountUpdate(s.threads, t, s'.threads[t], Releases(b));
  }

  /** Setting one handle moves one unit from what it held to what it holds. */
  lemma HandleCounts(handles: map<Name, Handle>, h: Name, v: Handle, b: BlockId)
    ensures CountIf(handles[h := v], Holds(b)) ==
            CountIf(handles, Holds(b)) - (if Get(handles, h).cb == Some(b) then 1 else 0)
                                       + (if v.cb == Some(b) then 1 else 0)
  {
    CountUpdate(handles, h, v, Holds(b));
  }

  /** A block some handle is on has not been reaped. */
  lemma HeldBlock(s: State, h: Name)
    requires Inv(s) && Get(s.handles, h).cb.Some?
    ensures var b := Get(s.handles, h).cb.value;
      b in s.blocks && HandleInv(s.blocks, Get(s.handles, h)) && s.blocks[b].reaper.None? && Holding(s, b) > 0
  {
    var b := Get(s.handles, h).cb.value;
    assert BlockInv(s, b);
    CountPositive(s.handles, h, Holds(b));
  }

  /** Thread `t` is about to start a task of its call. */
  ghost predicate Starts(s: State, t: Thread) {
    Inv(s) && t in s.threads && s.threads[t].phase == Ready && s.threads[t].todo != []
  }

  lemma StartFits(s: State, t: Thread)
    requires Starts(s, t)
    ensures var r := s.threads[t]; TaskFits(r.todo[0], NullIn(s.handles, r.changes), r.changes, r.looksAt)
  {
    assert TodoInv(s.handles, s.threads[t]);
  }

  lemma CopyKeeps(s: State, t: Thread)
    requires Starts(s, t) && s.threads[t].todo[0].Copy?
    ensures Inv(DoTask(s, t))
  {
    hide CountIf, Fits, BlockInv;
    var s' := DoTask(s, t);
    StartFits(s, t);
    forall b | b in s'.blocks ensures b < s'.next && BlockInv(s', b) {
      CopyBalance(s, s', t, b);
    }
    TaskKeeps(s, s', t, s'.threads[t].phase);
  }

  lemma CopyBalance(s: State, s': State, t: Thread, b: BlockId)
    requires Starts(s, t) && s.threads[t].todo[0].Copy? && s' == DoTask(s, t) && b in s'.blocks
    ensures b < s'.next && BlockInv(s', b)
  {
    hide CountIf, Fits, BlockInv, PhaseInv, HandleInv;
    var dst, src := s.threads[t].todo[0].dst, s.threads[t].todo[0].src;
    StartFits(s, t);
    if Get(s.handles, src).cb.Some? { HeldBlock(s, src); }
    TaskCounts(s, s', t, s'.threads[t].phase, b);
    HandleCounts(s.handles, dst, Get(s.handles, src), b);
    BlockBalance(s, s', t, s'.threads[t].phase, b);
  }

  lemma SwapKeeps(s: State, t: Thread)
    requires Starts(s, t) && s.threads[t].todo[0].Swap?
    ensures Inv(DoTask(s, t))
  {
    hide CountIf, Fits, BlockInv;
    var s' := DoTask(s, t);
    StartFits(s, t);
    forall b | b in s'.blocks ensures b < s'.next && BlockInv(s', b) {
      SwapBalance(s, s', t, b);
    }
    TaskKeeps(s, s', t, Ready);
  }

  lemma SwapBalance(s: State, s': State, t: Thread, b: BlockId)
    requires Starts(s, t) && s.threads[t].todo[0].Swap? && s' == DoTask(s, t) && b in s'.blocks
    ensures b < s'.next && BlockInv(s', b)
  {
    hide CountIf, Fits, BlockInv, PhaseInv, HandleInv;
    var x, y := s.threads[t].todo[0].a, s.threads[t].todo[0].b;
    StartFits(s, t);
    TaskCounts(s, s', t, Ready, b);
    HandleCounts(s.handles, x, Get(s.handles, y), b);
    HandleCounts(s.handles[x := Get(s.handles, y)], y, Get(s.handles, x), b);
    BlockBalance(s, s', t, Ready, b);
  }

  lemma StealKeeps(s: State, t: Thread)
    requires Starts(s, t) && s.threads[t].todo[0].Steal?
    ensures Inv(DoTask(s, t))
  {
    hide CountIf, Fits, BlockInv;
    var s' := DoTask(s, t);
    StartFits(s, t);
    forall b | b in s'.blocks ensures b < s'.next && BlockInv(s', b) {
      StealBalance(s, s', t, b);
    }
    TaskKeeps(s, s', t, Ready);
  }

  lemma StealBalance(s: State, s': State, t: Thread, b: BlockId)
    requires Starts(s, t) && s.threads[t].todo[0].Steal? && s' == DoTask(s, t) && b in s'.blocks
    ensures b < s'.next && BlockInv(s', b)
  {
    hide CountIf, Fits, BlockInv, PhaseInv, HandleInv;
    var dst, src := s.threads[t].todo[0].dst, s.threads[t].todo[0].src;
    StartFits(s, t);
    TaskCounts(s, s', t, Ready, b);
    HandleCounts(s.handles, dst, Get(s.handles, src), b);
    HandleCounts(s.handles[dst := Get(s.handles, src)], src, NULL, b);
    BlockBalance(s, s', t, Ready, b);
  }

  lemma ReleaseEffect(s: State, t: Thread)
    requires Starts(s, t) && s.threads[t].todo[0].Release?
    ensures var s', h := DoTask(s, t), s.threads[t].todo[0].h;
      var v := Get(s.handles, h);
      && TaskStep(s, s', t, if v.ptr.Some? then Waiting(v.cb.value, Decrement) else Ready)
      && s'.blocks == s.blocks && s'.next == s.next && s'.handles == s.handles[h := NULL]
      && s'.skipped == s.skipped + (if v.ptr.None? && v.cb.Some? then multiset{v.cb.value} else multiset{})
      && HandleInv(s.blocks, v) && h in s.threads[t].changes
  {
    hide BlockInv, PhaseInv, Fits, NullIn;
    StartFits(s, t);
    assert HandleInv(s.blocks, Get(s.handles, s.threads[t].todo[0].h));
  }

  lemma ReleaseKeeps(s: State, t: Thread)
    requires Starts(s, t) && s.threads[t].todo[0].Release?
    ensures Inv(DoTask(s, t))
  {
    hide CountIf, Fits, BlockInv, DoTask, TodoInv;
    var s' := DoTask(s, t);
    ReleaseEffect(s, t);
    forall b | b in s'.blocks ensures b < s'.next && BlockInv(s', b) {
      ReleaseBalance(s, s', t, b);
    }
    TaskKeeps(s, s', t, s'.threads[t].phase);
  }

  lemma ReleaseBalance(s: State, s': State, t: Thread, b: BlockId)
    requires Starts(s, t) && s.threads[t].todo[0].Release? && s' == DoTask(s, t) && b in s'.blocks
    ensures b < s'.next && BlockInv(s', b)
  {
    hide CountIf, Fits, BlockInv, PhaseInv, DoTask, TodoInv;
    ReleaseEffect(s, t);
    TaskCounts(s, s', t, s'.threads[t].phase, b);
    HandleCounts(s.handles, s.threads[t].todo[0].h, NULL, b);
    BlockBalance(s, s', t, s'.threads[t].phase, b);
  }

  lemma LookKeeps(s: State, t: Thread)
    requires Starts(s, t) && s.threads[t].todo[0].Look?
    ensures Inv(DoTask(s, t))
  {
    hide CountIf, Fits, BlockInv;
    var s' := DoTask(s, t);
    StartFits(s, t);
    assert HandleInv(s.blocks, Get(s.handles, s.threads[t].todo[0].h));
    forall b | b in s'.blocks ensures b < s'.next && BlockInv(s', b) {
      LookBalance(s, s', t, b);
    }
    TaskKeeps(s, s', t, s'.threads[t].phase);
  }

  lemma LookBalance(s: State, s': State, t: Thread, b: BlockId)
    requires Starts(s, t) && s.threads[t].todo[0].Look? && s' == DoTask(s, t) && b in s'.blocks
    ensures b < s'.next && BlockInv(s', b)
  {
    hide CountIf, Fits, BlockInv, PhaseInv, HandleInv;
    TaskCounts(s, s', t, s'.threads[t].phase, b);
    BlockBalance(s, s', t, s'.threads[t].phase, b);
  }

  lemma CountNone<K(!new), V(!new)>(m: map<K, V>, p: V -> bool)
    requires forall k :: k in m ==> !p(m[k])
    ensures CountIf(m, p) == 0
  {
  }

  /** Nothing refers to a block that does not exist yet. */
  lemma FreshBlock(s: State)
    requires Inv(s)
    ensures s.next !in s.blocks && s.skipped[s.next] == 0 && Holding(s, s.next) == 0 && Copying(s, s.next) == 0
            && Releasing(s, s.next) == 0
  {
  }

  lemma NewKeeps(s: State, t: Thread)
    requires Starts(s, t) && s.threads[t].todo[0].New?
    ensures Inv(DoTask(s, t))
  {
    hide CountIf, Fits, BlockInv;
    var s' := DoTask(s, t);
    StartFits(s, t);
    forall b | b in s'.blocks ensures b < s'.next && BlockInv(s', b) {
      NewBalance(s, s', t, b);
    }
    TaskKeeps(s, s', t, Ready);
  }

  lemma NewBalance(s: State, s': State, t: Thread, b: BlockId)
    requires Starts(s, t) && s.threads[t].todo[0].New? && s' == DoTask(s, t) && b in s'.blocks
    ensures b < s'.next && BlockInv(s', b)
  {
    hide CountIf, Fits, PhaseInv, HandleInv;
    var h := s.threads[t].todo[0].h;
    StartFits(s, t);
    FreshBlock(s);
    TaskCounts(s, s', t, Ready, b);
    HandleCounts(s.handles, h, s'.handles[h], b);
    if b != s.next {
      hide BlockInv;
      BlockBalance(s, s', t, Ready, b);
    }
  }

  lemma BeginKeeps(s: State, t: Thread, call: Call)
    requires Inv(s) && MayBegin(s, t, call)
    ensures Inv(Do(s, Begin(t, call)))
  {
    hide CountIf, Fits, PhaseInv, HandleInv, BlockInv, NamesFit, Tasks;
    var s' := Do(s, Begin(t, call));
    CallFits(call, s.handles);
    forall b | b in s'.blocks ensures b < s'.next && BlockInv(s', b) {
      BeginBalance(s, t, call, b);
    }
    forall u | u in s'.threads ensures PhaseInv(s', u) && TodoInv(s'.handles, s'.threads[u]) {
      if u != t {
        ThreadFrame(s, s', t, u);
      } else {
        BeginPhase(s, t, call);
      }
    }
  }

  lemma BeginPhase(s: State, t: Thread, call: Call)
    requires MayBegin(s, t, call)
    ensures PhaseInv(Do(s, Begin(t, call)), t)
  {
  }

  lemma BeginBalance(s: State, t: Thread, call: Call, b: BlockId)
    requires Inv(s) && MayBegin(s, t, call) && b in s.blocks
    ensures BlockInv(Do(s, Begin(t, call)), b)
  {
    hide CountIf, Fits, PhaseInv, HandleInv, BlockInv, NamesFit, Tasks;
    var s' := Do(s, Begin(t, call));
    CountUpdate(s.threads, t, s'.threads[t], Copies(b));
    CountUpdate(s.threads, t, s'.threads[t], Releases(b));
    BlockFrame(s, s', t, b);
  }

  lemma StepKeeps(s: State, action: Action)
    requires Inv(s)
    ensures Inv(Do(s, action))
  {
    hide Inv, MayBegin;
    match action {
      case Begin(t, call) =>
        if MayBegin(s, t, call) { BeginKeeps(s, t, call); }
      case Run(t) =>
        if t in s.threads {
          if s.threads[t].phase != Ready {
            RunUnderLock(s, t);
          } else if s.threads[t].todo != [] {
            match s.threads[t].todo[0] {
              case New(_, _) => NewKeeps(s, t);
              case Copy(_, _) => CopyKeeps(s, t);
              case Swap(_, _) => SwapKeeps(s, t);
              case Steal(_, _) => StealKeeps(s, t);
              case Release(_) => ReleaseKeeps(s, t);
              case Look(_) => LookKeeps(s, t);
            }
          }
        }
    }
  }

  // ----- every interleaving -----

  lemma {:induction false} EveryInterleaving(actions: seq<Action>)
    ensures Inv(After(actions))
    decreases |actions|
  {
    if actions != [] {
      EveryInterleaving(actions[..|actions| - 1]);
      StepKeeps(After(actions[..|actions| - 1]), actions[|actions| - 1]);
    }
  }

  /** No interleaving touches a deleted block, deletes twice, counts below zero or destroys a held mutex. */
  lemma NeverFaults(actions: seq<Action>)
    ensures !After(actions).fault
  {
    EveryInterleaving(actions);
  }

  /**
   The count is handles on the block, plus releases not yet decremented, minus copies not yet
   incremented, plus the releases that skipped the count because the block was made from null.
   */
  lemma CountMeaning(actions: seq<Action>, b: BlockId)
    requires b in After(actions).blocks
    ensures var s := After(actions);
      && s.blocks[b].count == Holding(s, b) + Releasing(s, b) - Copying(s, b) + s.skipped[b]
      && (s.blocks[b].hasObject ==> s.skipped[b] == 0)
  {
    EveryInterleaving(actions);
    assert BlockInv(After(actions), b);
  }

  /**
   Nothing a handle is on is ever deleted; object and block are deleted at most once, after the count
   reached zero.
   */
  lemma DeletedLastAndOnce(actions: seq<Action>, b: BlockId)
    requires b in After(actions).blocks
    ensures var s := After(actions);
      var block := s.blocks[b];
      && block.blockDeletes <= block.objectDeletes <= 1
      && (block.objectDeletes > 0 ==>
          block.count == 0 && Holding(s, b) == 0 && Copying(s, b) == 0 && Releasing(s, b) == 0)
  {
    EveryInterleaving(actions);
    assert BlockInv(After(actions), b);
  }

  /** What one action may do to an existing block's deletions and reaper. */
  ghost predicate FairToBlock(s: State, s': State, action: Action, b: BlockId) {
    b in s.blocks && b in s'.blocks &&
    var block, block' := s.blocks[b], s'.blocks[b];
    && (block'.objectDeletes > block.objectDeletes || block'.blockDeletes > block.blockDeletes ==>
          action.Run? && block.reaper == Some(action.t) && block.count == 0)
    && (block'.reaper != block.reaper <==>
          action.Run? && action.t in s.threads && s.threads[action.t].phase == Locked(b, Decrement) && block.count == 1)
    && (block'.reaper != block.reaper ==>
          block.reaper == None && block'.reaper == Some(action.t) && block'.count == 0)
  }

  /**
   Only the thread whose release reached zero deletes the object and the block, with the count
   at zero; and a thread becomes that reaper exactly by the decrement from one to zero.
   */
  lemma OnlyTheReaperDeletes(actions: seq<Action>, action: Action, b: BlockId)
    requires b in After(actions).blocks
    ensures FairToBlock(After(actions), After(actions + [action]), action, b)
  {
    hide Inv, DoTask, RunThread, MayBegin, FairToBlock;
    var s := After(actions);
    AfterOneMore(actions, action);
    EveryInterleaving(actions);
    if action.Run? && action.t in s.threads && Busy(s.threads[action.t]) {
      if s.threads[action.t].phase == Ready {
        TaskFair(s, action.t, b);
      } else {
        LockFair(s, action.t, b);
      }
    } else {
      NothingFair(s, action, b);
    }
  }

  lemma NothingFair(s: State, action: Action, b: BlockId)
    requires b in s.blocks && (action.Run? && action.t in s.threads ==> !Busy(s.threads[action.t]))
    ensures FairToBlock(s, Do(s, action), action, b)
  {
    hide MayBegin;
  }

  lemma TaskFair(s: State, t: Thread, b: BlockId)
    requires Inv(s) && b in s.blocks && t in s.threads && s.threads[t].phase == Ready && s.threads[t].todo != []
    ensures FairToBlock(s, RunThread(s, t), Run(t), b)
  {
    hide BlockInv, PhaseInv, HandleInv, Fits;
  }

  lemma LockFair(s: State, t: Thread, b: BlockId)
    requires Inv(s) && b in s.blocks && t in s.threads && s.threads[t].phase != Ready
    ensures FairToBlock(s, RunThread(s, t), Run(t), b)
  {
    hide BlockInv, PhaseInv, HandleInv, Fits, RunThread, FairToBlock;
    if s.threads[t].phase.b != b {
      ElsewhereFair(s, t, b);
    } else {
      if s.threads[t].phase.Locked? { ReferencedBlock(s, t); }
      InsideFair(s, t, b);
    }
  }

  lemma ElsewhereFair(s: State, t: Thread, b: BlockId)
    requires b in s.blocks && t in s.threads && s.threads[t].phase != Ready && s.threads[t].phase.b != b
    ensures FairToBlock(s, RunThread(s, t), Run(t), b)
  {
  }

  lemma InsideFair(s: State, t: Thread, b: BlockId)
    requires b in s.blocks && t in s.threads && s.threads[t].phase != Ready && s.threads[t].phase.b == b
    requires PhaseInv(s, t) && BlockInv(s, b)
    requires s.threads[t].phase.Locked? ==> s.blocks[b].reaper.None? && s.blocks[b].blockDeletes == 0
    ensures FairToBlock(s, RunThread(s, t), Run(t), b)
  {
    hide CountIf;
  }

  /**
   Once no handle and no thread at work is left on a block, it has been deleted exactly when
   it was made from a non-null pointer; a block made from a null pointer leaks.
   */
  lemma DeletedExactlyWhen(actions: seq<Action>, b: BlockId)
    requires b in After(actions).blocks
    requires forall t :: t in After(actions).threads && After(actions).threads[t].phase != Ready ==>
             After(actions).threads[t].phase.b != b
    requires forall h :: h in After(actions).handles ==> After(actions).handles[h].cb != Some(b)
    ensures var block := After(actions).blocks[b];
      && (block.objectDeletes == 1 <==> block.hasObject)
      && (block.blockDeletes == 1 <==> block.hasObject)
  {
    hide CountIf, Fits, HandleInv, PhaseInv, TodoInv, Separate, MayBegin, RunThread;
    EveryInterleaving(actions);
    var s := After(actions);
    assert BlockInv(s, b);
    CountNone(s.handles, Holds(b));
    CountNone(s.threads, Copies(b));
    CountNone(s.threads, Releases(b));
  }

  lemma AfterOneMore(actions: seq<Action>, action: Action)
    ensures After(actions + [action]) == Do(After(actions), action)
  {
    assert (actions + [action])[..|actions|] == actions;
  }

  lemma Then(actions: seq<Action>, s: State, action: Action, s': State) returns (longer: seq<Action>)
    requires After(actions) == s && Do(s, action) == s'
    ensures longer == actions + [action] && After(longer) == s'
  {
    longer := actions + [action];
    AfterOneMore(actions, action);
  }

  /** The shortest leak: a handle is made from a null pointer and destroyed. */
  lemma NullBlockLeaks() returns (run: seq<Action>)
    ensures run == [Begin(0, Construct(1, false)), Run(0)] + [Begin(0, Destroy(1)), Run(0)]
    ensures var s := After(run);
      && s.threads == map[0 := Running([], Ready, {1}, {}, 0)] && s.handles == map[1 := NULL]
      && s.blocks == map[0 := Block(1, None, false, None, 0, 0)]
  {
    var s;
    run, s := FirstHandle(false);
    var r := Running([Release(1)], Ready, {1}, {}, 0);
    var s1 := s.(threads := map[0 := r]);
    run := Then(run, s, Begin(0, Destroy(1)), s1);
    assert r.todo[1..] == [];
    run := Then(run, s1, Run(0), s.(handles := map[1 := NULL], skipped := multiset{0}));
  }

  lemma FirstHandle(hasObject: bool) returns (run: seq<Action>, s: State)
    ensures run == [Begin(0, Construct(1, hasObject)), Run(0)] && After(run) == s
    ensures s == State(map[0 := Block(1, None, hasObject, None, 0, 0)],
                       map[1 := Handle(if hasObject then Some(0) else None, Some(0))],
                       map[0 := Running([], Ready, {1}, {}, 0)], 1, multiset{}, false)
  {
    var s0, r := State(map[], map[], map[], 0, multiset{}, false), Running([New(1, hasObject)], Ready, {1}, {}, 0);
    run := Then([], s0, Begin(0, Construct(1, hasObject)), s0.(threads := map[0 := r]));
    assert r.todo[1..] == [];
    s := State(map[0 := Block(1, None, hasObject, None, 0, 0)],
               map[1 := Handle(if hasObject then Some(0) else None, Some(0))],
               map[0 := r.(todo := [])], 1, multiset{}, false);
    run := Then(run, s0.(threads := map[0 := r]), Run(0), s);
  }

  /** The state with another phase for thread `t` and another value for the block that phase was about. */
  function With(s: State, t: Thread, block: Block, phase: Phase): State
    requires t in s.threads && s.threads[t].phase != Ready
  {
    s.(blocks := s.blocks[s.threads[t].phase.b := block], threads := s.threads[t := s.threads[t].(phase := phase)])
  }

  lemma TakesFreeLock(s: State, t: Thread, b: BlockId)
    requires t in s.threads && b in s.blocks && s.blocks[b].holder.None? && s.blocks[b].blockDeletes == 0
    requires s.threads[t].phase.Waiting? && s.threads[t].phase.b == b
    ensures Do(s, Run(t)) == With(s, t, s.blocks[b].(holder := Some(t)), Locked(b, s.threads[t].phase.job))
  {
  }

  lemma Counts(s: State, t: Thread, b: BlockId, count: int)
    requires t in s.threads && b in s.blocks && s.blocks[b].blockDeletes == 0
    requires s.threads[t].phase.Locked? && s.threads[t].phase.b == b && !s.threads[t].phase.job.Read?
    requires if s.threads[t].phase.job.Increment? then count == s.blocks[b].count + 1
             else count == s.blocks[b].count - 1 > 0
    ensures Do(s, Run(t)) == With(s, t, s.blocks[b].(count := count), Unlocking(b, false))
  {
  }

  lemma LeavesLock(s: State, t: Thread, b: BlockId)
    requires t in s.threads && b in s.blocks && s.blocks[b].blockDeletes == 0
             && s.threads[t].phase == Unlocking(b, false)
    ensures Do(s, Run(t)) == With(s, t, s.blocks[b].(holder := None), Ready)
  {
  }

  /** Three undisturbed steps take a thread through a free lock. */
  lemma ThroughTheLock(run: seq<Action>, s: State, t: Thread, b: BlockId, count: int) returns (longer: seq<Action>)
    requires After(run) == s && t in s.threads && b in s.blocks
    requires s.blocks[b].holder.None? && s.blocks[b].blockDeletes == 0
    requires s.threads[t].phase.Waiting? && s.threads[t].phase.b == b && !s.threads[t].phase.job.Read?
    requires if s.threads[t].phase.job.Increment? then count == s.blocks[b].count + 1
             else count == s.blocks[b].count - 1 > 0
    ensures longer == run + [Run(t), Run(t), Run(t)]
    ensures After(longer) == s.(blocks := s.blocks[b := s.blocks[b].(count := count)],
                                threads := s.threads[t := s.threads[t].(phase := Ready)])
  {
    hide Do, RunThread;
    var block, r := s.blocks[b], s.threads[t];
    var inside := With(s, t, block.(holder := Some(t)), Locked(b, r.phase.job));
    TakesFreeLock(s, t, b);
    longer := Then(run, s, Run(t), inside);
    var done := With(s, t, block.(holder := Some(t), count := count), Unlocking(b, false));
    Counts(inside, t, b, count);
    assert With(inside, t, block.(holder := Some(t), count := count), Unlocking(b, false)) == done;
    longer := Then(longer, inside, Run(t), done);
    LeavesLock(done, t, b);
    assert With(done, t, block.(count := count), Ready) == With(s, t, block.(count := count), Ready);
    longer := Then(longer, done, Run(t), With(s, t, block.(count := count), Ready));
  }

  /**
   One thread makes a handle, a second copies it, a third destroys the first: the copy keeps the object,
   with count 1.
   */
  lemma HandedAround() returns (run: seq<Action>)
    ensures run == [Begin(0, Construct(1, true)), Run(0)]
                   + [Begin(1, CopyConstruct(2, 1)), Run(1)] + [Run(1), Run(1), Run(1)]
                   + [Begin(2, Destroy(1)), Run(2)] + [Run(2), Run(2), Run(2)]
    ensures var s := After(run);
      && (forall t :: t in s.threads ==> !Busy(s.threads[t]))
      && s.handles == map[1 := NULL, 2 := Handle(Some(0), Some(0))]
      && s.blocks == map[0 := Block(1, None, true, None, 0, 0)]
  {
    var s;
    run, s := FirstHandle(true);
    hide RunThread, DoTask, Do;
    var copying := CopyStarts(run, s);
    run := ThroughTheLock(run + [Begin(1, CopyConstruct(2, 1)), Run(1)], copying, 1, 0, 2);
    var destroying := DestroyStarts(run, After(run));
    run := ThroughTheLock(run + [Begin(2, Destroy(1)), Run(2)], destroying, 2, 0, 1);
  }

  lemma CopyStarts(run: seq<Action>, s: State) returns (s': State)
    requires After(run) == s && 1 !in s.threads && (forall t :: t in s.threads ==> !Busy(s.threads[t]))
    requires s.handles == map[1 := Handle(Some(0), Some(0))]
    ensures After(run + [Begin(1, CopyConstruct(2, 1)), Run(1)]) == s'
    ensures s' == s.(handles := s.handles[2 := Handle(Some(0), Some(0))],
                     threads := s.threads[1 := Running([], Waiting(0, Increment(2, 1)), {2}, {1}, 0)])
  {
    var r := Running([Copy(2, 1)], Ready, {2}, {1}, 0);
    var begun := s.(threads := s.threads[1 := r]);
    var longer := Then(run, s, Begin(1, CopyConstruct(2, 1)), begun);
    assert r.todo[1..] == [];
    s' := begun.(handles := s.handles[2 := Handle(Some(0), Some(0))],
                 threads := s.threads[1 := r.(todo := [], phase := Waiting(0, Increment(2, 1)))]);
    longer := Then(longer, begun, Run(1), s');
    assert longer == run + [Begin(1, CopyConstruct(2, 1)), Run(1)];
  }

  lemma DestroyStarts(run: seq<Action>, s: State) returns (s': State)
    requires After(run) == s && 2 !in s.threads && (forall t :: t in s.threads ==> !Busy(s.threads[t]))
    requires 1 in s.handles && s.handles[1] == Handle(Some(0), Some(0))
    ensures After(run + [Begin(2, Destroy(1)), Run(2)]) == s'
    ensures s' == s.(handles := s.handles[1 := NULL],
                     threads := s.threads[2 := Running([], Waiting(0, Decrement), {1}, {}, 0)])
  {
    var r := Running([Release(1)], Ready, {1}, {}, 0);
    var begun := s.(threads := s.threads[2 := r]);
    var longer := Then(run, s, Begin(2, Destroy(1)), begun);
    assert r.todo[1..] == [];
    s' := begun.(handles := s.handles[1 := NULL],
        threads := s.threads[2 := r.(todo := [], phase := Waiting(0, Decrement))]);
    longer := Then(longer, begun, Run(2), s');
    assert longer == run + [Begin(2, Destroy(1)), Run(2)];
  }

  lemma BusyThreadMoves(s: State, u: Thread)
    requires Inv(s) && u in s.threads && s.threads[u].phase != Ready
    requires s.threads[u].phase.Waiting? ==>
             s.threads[u].phase.b in s.blocks && s.blocks[s.threads[u].phase.b].holder.None?
    ensures u in RunThread(s, u).threads && RunThread(s, u).threads[u].phase != s.threads[u].phase
  {
    hide CountIf, Fits;
    assert !RunThread(s, u).fault by { StepKeeps(s, Run(u)); }
    assert PhaseInv(s, u);
  }

  /** The locks cannot deadlock: while some thread is not idle, some thread's step changes the state. */
  lemma SomeThreadMoves(actions: seq<Action>, t: Thread)
    requires t in After(actions).threads && Busy(After(actions).threads[t])
    ensures exists u :: u in After(actions).threads && RunThread(After(actions), u) != After(actions)
  {
    hide RunThread, BlockInv;
    EveryInterleaving(actions);
    var s := After(actions);
    if s.threads[t].phase == Ready {
      TaskMoves(s, t);
    } else {
      var u := Mover(s, t);
      BusyThreadMoves(s, u);
    }
  }

  lemma TaskMoves(s: State, t: Thread)
    requires t in s.threads && s.threads[t].phase == Ready && s.threads[t].todo != []
    ensures RunThread(s, t) != s
  {
  }

  lemma Mover(s: State, t: Thread) returns (u: Thread)
    requires Inv(s) && t in s.threads && s.threads[t].phase != Ready
    ensures u in s.threads && s.threads[u].phase != Ready
    ensures s.threads[u].phase.Waiting? ==>
            s.threads[u].phase.b in s.blocks && s.blocks[s.threads[u].phase.b].holder.None?
  {
    hide CountIf, Fits;
    assert PhaseInv(s, t) && BlockInv(s, s.threads[t].phase.b);
    var holder := s.blocks[s.threads[t].phase.b].holder;
    u := if s.threads[t].phase.Waiting? && holder.Some? then holder.value else t;
  }

  // ----- every call ends -----

  function Rank(phase: Phase): nat {
    match phase
    case Ready => 0
    case Waiting(_, _) => 5
    case Locked(_, _) => 4
    case Unlocking(_, _) => 3
    case DeletingObject(_) => 2
    case DeletingBlock(_) => 1
  }

  /** Steps a thread may still have to take for its call. */
  function Work(r: Running): nat { 6 * |r.todo| + Rank(r.phase) }

  function WorkOf(s: State, t: Thread): nat { if t in s.threads then Work(s.threads[t]) else 0 }

  /** A step that changes anything brings its thread closer to the end of its call and no other thread further away. */
  lemma StepWorks(s: State, t: Thread)
    requires Inv(s) && t in s.threads && RunThread(s, t) != s
    ensures var s' := RunThread(s, t);
      && s'.threads.Keys == s.threads.Keys && WorkOf(s', t) < WorkOf(s, t)
      && forall u :: u in s.threads && u != t ==> s'.threads[u] == s.threads[u]
  {
    hide CountIf, Fits, BlockInv, DoTask;
    assert !RunThread(s, t).fault by { StepKeeps(s, Run(t)); }
    if s.threads[t].phase == Ready {
      TaskWorks(s, t);
    }
  }

  lemma TaskWorks(s: State, t: Thread)
    requires t in s.threads && s.threads[t].phase == Ready && s.threads[t].todo != []
    ensures var s' := DoTask(s, t);
      && s'.threads.Keys == s.threads.Keys && WorkOf(s', t) < WorkOf(s, t)
      && forall u :: u in s.threads && u != t ==> s'.threads[u] == s.threads[u]
  {
  }

  /** Steps of `t` in a run that changed the state. */
  ghost function Steps(actions: seq<Action>, t: Thread): nat {
    if actions == [] then 0
    else
      var n := |actions| - 1;
      Steps(actions[..n], t) + if actions[n] == Run(t) && After(actions) != After(actions[..n]) then 1 else 0
  }

  /** Tasks of the member functions that `t` began in a run. */
  ghost function Begun(actions: seq<Action>, t: Thread): nat {
    if actions == [] then 0
    else
      var n := |actions| - 1;
      Begun(actions[..n], t) +
      if actions[n].Begin? && actions[n].t == t && MayBegin(After(actions[..n]), t, actions[n].call)
      then |Tasks(actions[n].call)| else 0
  }

  /** In every run a thread takes at most six steps for each task it began; no member function runs for ever. */
  lemma {:induction false} StepsBounded(actions: seq<Action>, t: Thread)
    ensures Steps(actions, t) + WorkOf(After(actions), t) <= 6 * Begun(actions, t)
    decreases |actions|
  {
    hide Inv, MayBegin, RunThread, Tasks;
    if actions != [] {
      var n := |actions| - 1;
      StepsBounded(actions[..n], t);
      EveryInterleaving(actions[..n]);
      var s := After(actions[..n]);
      if actions[n].Run? && actions[n].t in s.threads && RunThread(s, actions[n].t) != s {
        StepWorks(s, actions[n].t);
      }
    }
  }

  ghost function WorkOfAll(s: State, names: seq<Thread>): nat {
    if names == [] then 0 else WorkOf(s, names[0]) + WorkOfAll(s, names[1..])
  }

  lemma {:induction false} LessWork(s: State, s': State, names: seq<Thread>, t: Thread)
    requires forall u :: u in names && u != t ==> WorkOf(s', u) == WorkOf(s, u)
    requires WorkOf(s', t) < WorkOf(s, t)
    ensures WorkOfAll(s', names) <= WorkOfAll(s, names)
    ensures t in names ==> WorkOfAll(s', names) < WorkOfAll(s, names)
  {
    if names != [] {
      LessWork(s, s', names[1..], t);
    }
  }

  lemma AllMoved(actions: seq<Action>, names: seq<Thread>, t: Thread) returns (u: Thread)
    requires forall v :: v in After(actions).threads ==> v in names
    requires t in After(actions).threads && Busy(After(actions).threads[t])
    ensures forall v :: v in After(actions + [Run(u)]).threads ==> v in names
    ensures WorkOfAll(After(actions + [Run(u)]), names) < WorkOfAll(After(actions), names)
  {
    hide Inv, RunThread, WorkOf;
    var s := After(actions);
    SomeThreadMoves(actions, t);
    u :| u in s.threads && RunThread(s, u) != s;
    EveryInterleaving(actions);
    StepWorks(s, u);
    AfterOneMore(actions, Run(u));
    SameWork(s, RunThread(s, u), u);
    LessWork(s, RunThread(s, u), names, u);
  }

  /** From every reachable state, running the threads that can move brings every call to its end. */
  lemma {:induction false} EveryCallEnds(actions: seq<Action>, names: seq<Thread>) returns (more: seq<Action>)
    requires forall t :: t in After(actions).threads ==> t in names
    ensures forall a :: a in more ==> a.Run?
    ensures forall t :: t in After(actions + more).threads ==> !Busy(After(actions + more).threads[t])
    decreases WorkOfAll(After(actions), names)
  {
    hide Inv, RunThread, WorkOf, Do;
    if t :| t in After(actions).threads && Busy(After(actions).threads[t]) {
      var u := AllMoved(actions, names, t);
      more := EveryCallEnds(actions + [Run(u)], names);
      assert actions + [Run(u)] + more == actions + ([Run(u)] + more);
      more := [Run(u)] + more;
    } else {
      more := [];
      assert actions + more == actions;
    }
  }

  lemma SameWork(s: State, s': State, t: Thread)
    requires s'.threads.Keys == s.threads.Keys
    requires forall u :: u in s.threads && u != t ==> s'.threads[u] == s.threads[u]
    ensures forall u :: u != t ==> WorkOf(s', u) == WorkOf(s, u)
  {
  }

  /**
   What `get_count` reads under the lock: every reference counted, its own handle's included, and the
   skipped releases of a null pointer's block.
   */
  lemma CountRead(actions: seq<Action>, t: Thread)
    requires t in After(actions).threads
    requires After(actions).threads[t].phase.Locked? && After(actions).threads[t].phase.job.Read?
    ensures var s := After(actions);
      var b := s.threads[t].phase.b;
      && b in s.blocks && (s.blocks[b].hasObject ==> s.skipped[b] == 0)
      && RunThread(s, t).threads[t].seen == Holding(s, b) + Releasing(s, b) - Copying(s, b) + s.skipped[b]
      && RunThread(s, t).threads[t].seen > 0
      && Get(s.handles, s.threads[t].phase.job.h).cb == Some(b)
  {
    hide CountIf, Fits;
    EveryInterleaving(actions);
    var s := After(actions);
    assert PhaseInv(s, t) && BlockInv(s, s.threads[t].phase.b);
    ReferencedBlock(s, t);
  }

  // ----- what a finished call has done to its handles -----

  /** Where the value a handle has at the end comes from. */
  datatype Source = From(name: Name) | Null | Made

  /** What `n` holds after one task, in terms of before it. */
  function Before(task: Task, n: Name): Source {
    match task
    case New(h, _) => if n == h then Made else From(n)
    case Copy(dst, src) => if n == dst then From(src) else From(n)
    case Swap(a, b) => if n == a then From(b) else if n == b then From(a) else From(n)
    case Steal(dst, src) => if n == src then Null else if n == dst then From(src) else From(n)
    case Release(h) => if n == h then Null else From(n)
    case Look(_) => From(n)
  }

  function Origin(todo: seq<Task>, n: Name): Source {
    if todo == [] then From(n)
    else
      var o := Origin(todo[1..], n);
      if o.From? then Before(todo[0], o.name) else o
  }

  function Value(o: Source, handles: map<Name, Handle>, made: Handle): Handle {
    match o
    case From(n) => Get(handles, n)
    case Null => NULL
    case Made => made
  }

  /** What each member function is documented to leave in its handles. */
  function Promise(call: Call, n: Name): Source {
    match call
    case Construct(h, _) => if n == h then Made else From(n)
    case CopyConstruct(h, other) => if n == h then From(other) else From(n)
    case MoveConstruct(h, other) => if n == h then From(other) else if n == other then Null else From(n)
    case CopyAssign(h, other, tmp) =>
      if h == other then From(n) else if n == h then From(other) else if n == tmp then Null else From(n)
    case MoveAssign(h, other) =>
      if h == other then From(n) else if n == h then From(other) else if n == other then Null else From(n)
    case Reset(h, hasObject, tmp, made) =>
      if n == h then (if hasObject then Made else From(tmp))
      else if n == tmp || (hasObject && n == made) then Null else From(n)
    case GetCount(_) => From(n)
    case Destroy(h) => if n == h then Null else From(n)
  }

  lemma OriginCons(task: Task, rest: seq<Task>, n: Name)
    ensures Origin([task] + rest, n) == var o := Origin(rest, n); if o.From? then Before(task, o.name) else o
  {
  }

  lemma ResetKeepsPromise(h: Name, hasObject: bool, tmp: Name, made: Name, n: Name)
    requires h != tmp && h != made && tmp != made
    ensures Origin(Tasks(Reset(h, hasObject, tmp, made)), n) == Promise(Reset(h, hasObject, tmp, made), n)
  {
    hide Origin;
    OriginNone(n);
    var swap := [Swap(h, tmp), Release(tmp)];
    OriginOne(Release(tmp), n);
    OriginCons(Swap(h, tmp), [Release(tmp)], n);
    assert swap == [Swap(h, tmp)] + [Release(tmp)];
    if hasObject {
      OriginCons(Release(made), swap, n);
      OriginCons(Steal(tmp, made), [Release(made)] + swap, n);
      OriginCons(Release(tmp), [Steal(tmp, made)] + ([Release(made)] + swap), n);
      OriginCons(New(made, true), [Release(tmp)] + ([Steal(tmp, made)] + ([Release(made)] + swap)), n);
      assert Tasks(Reset(h, hasObject, tmp, made)) ==
          [New(made, true)] + ([Release(tmp)] + ([Steal(tmp, made)] + ([Release(made)] + swap)));
    } else {
      assert [] + swap == swap;
    }
  }

  lemma OriginNone(n: Name)
    ensures Origin([], n) == From(n)
  {
  }

  lemma OriginOne(task: Task, n: Name)
    ensures Origin([task], n) == Before(task, n)
  {
  }

  /** The task lists do what their member functions promise. */
  lemma TasksKeepPromise(call: Call, handles: map<Name, Handle>, n: Name)
    requires NamesFit(call, handles)
    ensures Origin(Tasks(call), n) == Promise(call, n)
  {
    hide Origin;
    OriginNone(n);
    match call {
      case CopyAssign(h, other, tmp) =>
        if h != other {
          OriginOne(Release(tmp), n);
          OriginCons(Swap(h, tmp), [Release(tmp)], n);
          OriginCons(Copy(tmp, other), [Swap(h, tmp), Release(tmp)], n);
          assert [Swap(h, tmp), Release(tmp)] == [Swap(h, tmp)] + [Release(tmp)];
          assert Tasks(call) == [Copy(tmp, other)] + [Swap(h, tmp), Release(tmp)];
        }
      case MoveAssign(h, other) =>
        if h != other {
          OriginOne(Steal(h, other), n);
          OriginCons(Release(h), [Steal(h, other)], n);
          assert Tasks(call) == [Release(h)] + [Steal(h, other)];
        }
      case Reset(h, hasObject, tmp, made) =>
        ResetKeepsPromise(h, hasObject, tmp, made, n);
      case _ =>
        OriginOne(Tasks(call)[0], n);
    }
  }

  lemma OwnTask(s: State, t: Thread, n: Name, made: Handle)
    requires t in s.threads && s.threads[t].todo != []
    requires s.threads[t].todo[0].New? ==>
               made == Handle(if s.threads[t].todo[0].hasObject then Some(s.next) else None, Some(s.next))
    ensures Get(DoTask(s, t).handles, n) == Value(Before(s.threads[t].todo[0], n), s.handles, made)
  {
    match s.threads[t].todo[0]
    case New(_, _) =>
    case Swap(_, _) =>
    case Copy(_, _) =>
    case Release(_) =>
    case _ =>
  }

  /** A step of thread `u` leaves alone every handle it is not changing. */
  lemma StepElsewhere(s: State, u: Thread, n: Name)
    requires u in s.threads && (Busy(s.threads[u]) ==> n !in s.threads[u].changes) && TodoInv(s.handles, s.threads[u])
    ensures Get(RunThread(s, u).handles, n) == Get(s.handles, n)
  {
    if s.threads[u].phase == Ready && s.threads[u].todo != [] {
      TaskElsewhere(s, u, n);
    }
  }

  lemma TaskElsewhere(s: State, u: Thread, n: Name)
    requires u in s.threads && n !in s.threads[u].changes && TodoInv(s.handles, s.threads[u]) && s.threads[u].todo != []
    ensures Get(DoTask(s, u).handles, n) == Get(s.handles, n)
  {
    var r := s.threads[u];
    assert TaskFits(r.todo[0], NullIn(s.handles, r.changes), r.changes, r.looksAt);
  }

  /** No call makes more than one control block. */
  ghost predicate AtMostOneNew(todo: seq<Task>) {
    forall i, j :: 0 <= i < j < |todo| ==> !(todo[i].New? && todo[j].New?)
  }

  /** Thread `t` is inside `call`, begun in `s0`; `made` is the handle it made, if it has. */
  ghost predicate OnCourse(s0: State, s: State, t: Thread, call: Call, made: Option<Handle>) {
    && t in s.threads && s0.next <= s.next
    && s.threads[t].changes == Writes(call) && s.threads[t].looksAt == Reads(call)
    && (forall k :: k in s.threads[t].todo ==> k in Tasks(call))
    && AtMostOneNew(s.threads[t].todo)
    && (made.None? ==> forall k :: k in Tasks(call) && k.New? ==> k in s.threads[t].todo)
    && (made.Some? ==> forall k :: k in s.threads[t].todo ==> !k.New?)
    && (made.Some? ==> made.value.cb.Some? && made.value.cb.value >= s0.next
                       && forall k :: k in Tasks(call) && k.New? ==>
                           made.value.ptr == if k.hasObject then made.value.cb else None)
  }

  /** And what its remaining tasks still do leads to what all of them were to do. */
  ghost predicate OnTrack(s0: State, s: State, t: Thread, call: Call, made: Option<Handle>) {
    && t in s.threads && OnCourse(s0, s, t, call, made)
    && forall n, m :: n in Writes(call) + Reads(call) && (made.Some? ==> m == made.value) ==>
         Value(Origin(s.threads[t].todo, n), s.handles, m) == Value(Origin(Tasks(call), n), s0.handles, m)
  }

  lemma {:induction false} OriginsFit(todo: seq<Task>, nulls: set<Name>, changes: set<Name>, looksAt: set<Name>,
                                      n: Name)
    requires Fits(todo, nulls, changes, looksAt) && n in changes + looksAt
    ensures Origin(todo, n).From? ==> Origin(todo, n).name in changes + looksAt
    decreases |todo|
  {
    if todo != [] {
      OriginsFit(todo[1..], StillNull(todo[0], nulls), changes, looksAt, n);
    }
  }

  lemma OthersOnTrack(s0: State, s: State, t: Thread, call: Call, made: Option<Handle>, s': State)
    requires Inv(s) && OnTrack(s0, s, t, call, made)
    requires t in s'.threads && s'.threads[t].(phase := Ready, seen := 0) == s.threads[t].(phase := Ready, seen := 0)
             && s.next <= s'.next
    requires forall n :: n in Writes(call) + Reads(call) ==> Get(s'.handles, n) == Get(s.handles, n)
    ensures OnTrack(s0, s', t, call, made)
  {
    var r := s.threads[t];
    assert TodoInv(s.handles, r);
    forall n, m | n in Writes(call) + Reads(call) && (made.Some? ==> m == made.value)
      ensures Value(Origin(r.todo, n), s'.handles, m) == Value(Origin(Tasks(call), n), s0.handles, m)
    {
      OriginsFit(r.todo, NullIn(s.handles, r.changes), r.changes, r.looksAt, n);
    }
  }

  lemma TaskBookkeeping(s: State, t: Thread)
    requires t in s.threads && s.threads[t].todo != []
    ensures var s' := DoTask(s, t);
      && t in s'.threads && s'.threads[t].todo == s.threads[t].todo[1..]
      && s'.threads[t].changes == s.threads[t].changes && s'.threads[t].looksAt == s.threads[t].looksAt
      && s.next <= s'.next
  {
  }

  /** The handle on the block that a task makes, if it makes one; else what was made before. */
  function MadeBy(task: Task, b: BlockId, made: Option<Handle>): Option<Handle> {
    if task.New? then Some(Handle(if task.hasObject then Some(b) else None, Some(b))) else made
  }

  lemma TaskOnCourse(s0: State, s: State, t: Thread, call: Call, made: Option<Handle>)
    requires OnCourse(s0, s, t, call, made) && s.threads[t].todo != []
    ensures OnCourse(s0, DoTask(s, t), t, call, MadeBy(s.threads[t].todo[0], s.next, made))
    ensures made.Some? ==> !s.threads[t].todo[0].New?
  {
    hide DoTask, Tasks, Writes, Reads;
    var r := s.threads[t];
    TaskBookkeeping(s, t);
    assert r.todo == [r.todo[0]] + r.todo[1..];
    assert forall i :: 0 <= i < |r.todo[1..]| ==> r.todo[1..][i] == r.todo[i + 1];
  }

  lemma TaskOnTrack(s0: State, s: State, t: Thread, call: Call, made: Option<Handle>) returns (made': Option<Handle>)
    requires OnTrack(s0, s, t, call, made) && s.threads[t].todo != []
    ensures OnTrack(s0, DoTask(s, t), t, call, made')
  {
    hide DoTask, Value, Before, Tasks, Writes, Reads, Origin, OnCourse;
    var s', r := DoTask(s, t), s.threads[t];
    made' := MadeBy(r.todo[0], s.next, made);
    TaskBookkeeping(s, t);
    TaskOnCourse(s0, s, t, call, made);
    forall n, m | n in Writes(call) + Reads(call) && (made'.Some? ==> m == made'.value)
      ensures Value(Origin(r.todo[1..], n), s'.handles, m) == Value(Origin(Tasks(call), n), s0.handles, m)
    {
      TaskValue(s, t, n, m);
    }
  }

  lemma TaskValue(s: State, t: Thread, n: Name, m: Handle)
    requires t in s.threads && s.threads[t].todo != []
    requires s.threads[t].todo[0].New? ==>
             m == Handle(if s.threads[t].todo[0].hasObject then Some(s.next) else None, Some(s.next))
    ensures Value(Origin(s.threads[t].todo[1..], n), DoTask(s, t).handles, m) ==
            Value(Origin(s.threads[t].todo, n), s.handles, m)
  {
    hide DoTask, Before;
    var o := Origin(s.threads[t].todo[1..], n);
    if o.From? { OwnTask(s, t, o.name, m); }
  }

  lemma StepOnTrack(s0: State, s: State, t: Thread, call: Call, made: Option<Handle>, action: Action)
    returns (made': Option<Handle>)
    requires Inv(s) && OnTrack(s0, s, t, call, made) && Busy(s.threads[t])
    ensures OnTrack(s0, Do(s, action), t, call, made')
  {
    hide OnTrack, Fits, BlockInv, PhaseInv, HandleInv, DoTask, RunThread;
    made' := made;
    OnTrackNames(s0, s, t, call, made);
    if action.Begin? || action.t !in s.threads {
      OthersOnTrack(s0, s, t, call, made, Do(s, action));
    } else if action.t == t && s.threads[t].phase == Ready {
      assert RunThread(s, t) == DoTask(s, t) by { ReadyStep(s, t); }
      made' := TaskOnTrack(s0, s, t, call, made);
    } else {
      if action.t == t {
        LockStep(s, t);
      } else {
        forall n | n in Writes(call) + Reads(call) ensures Get(RunThread(s, action.t).handles, n) == Get(s.handles, n) {
          Alone(s, t, n);
          StepElsewhere(s, action.t, n);
        }
      }
      StepBookkeeping(s, t, action.t);
      OthersOnTrack(s0, s, t, call, made, Do(s, action));
    }
  }

  lemma ReadyStep(s: State, t: Thread)
    requires t in s.threads && s.threads[t].phase == Ready && s.threads[t].todo != []
    ensures RunThread(s, t) == DoTask(s, t)
  {
  }

  /** Under the lock no handle changes. */
  lemma LockStep(s: State, t: Thread)
    requires t in s.threads && s.threads[t].phase != Ready
    ensures RunThread(s, t).handles == s.handles
  {
  }

  lemma OnTrackNames(s0: State, s: State, t: Thread, call: Call, made: Option<Handle>)
    requires OnTrack(s0, s, t, call, made)
    ensures t in s.threads && s.threads[t].changes == Writes(call) && s.threads[t].looksAt == Reads(call)
  {
  }

  lemma StepBookkeeping(s: State, t: Thread, u: Thread)
    requires t in s.threads && u in s.threads
    requires u == t ==> s.threads[t].phase != Ready || s.threads[t].todo == []
    ensures var s' := RunThread(s, u);
      t in s'.threads && s'.threads[t].(phase := Ready, seen := 0) == s.threads[t].(phase := Ready, seen := 0)
          && s.next <= s'.next
  {
    hide DoTask;
    if s.threads[u].phase == Ready && s.threads[u].todo != [] {
      TaskWorks(s, u);
      TaskBookkeeping(s, u);
    }
  }

  lemma BeginOnTrack(s: State, t: Thread, call: Call)
    requires MayBegin(s, t, call)
    ensures OnTrack(s, Do(s, Begin(t, call)), t, call, None)
  {
  }

  /** The run in which `t` begins `call` after `before` and is still inside it before each action of `during`. */
  ghost predicate During(before: seq<Action>, t: Thread, call: Call, during: seq<Action>) {
    && MayBegin(After(before), t, call)
    && forall k {:trigger during[..k]} :: 0 <= k < |during| ==>
         var s := After(before + [Begin(t, call)] + during[..k]); t in s.threads && Busy(s.threads[t])
  }

  lemma {:induction false} CallOnTrack(before: seq<Action>, t: Thread, call: Call, during: seq<Action>)
    returns (made: Option<Handle>)
    requires During(before, t, call, during)
    ensures OnTrack(After(before), After(before + [Begin(t, call)] + during), t, call, made)
    decreases |during|
  {
    hide OnTrack, Inv, MayBegin, Do;
    if during == [] {
      made := None;
      assert before + [Begin(t, call)] + during == before + [Begin(t, call)];
      assert (before + [Begin(t, call)])[..|before|] == before;
      BeginOnTrack(After(before), t, call);
    } else {
      var n := |during| - 1;
      var all := before + [Begin(t, call)] + during;
      assert all[..|all| - 1] == before + [Begin(t, call)] + during[..n] && all[|all| - 1] == during[n];
      forall k | 0 <= k < n ensures during[..n][..k] == during[..k] {}
      made := CallOnTrack(before, t, call, during[..n]);
      EveryInterleaving(before + [Begin(t, call)] + during[..n]);
      made := StepOnTrack(After(before), After(before + [Begin(t, call)] + during[..n]), t, call, made, during[n]);
    }
  }

  /** A handle that no member function in progress changes stays as it is until one that changes it begins. */
  lemma {:induction false} Undisturbed(actions: seq<Action>, more: seq<Action>, n: Name)
    requires forall u :: u in After(actions).threads && Busy(After(actions).threads[u]) ==>
             n !in After(actions).threads[u].changes
    requires forall a :: a in more && a.Begin? ==> n !in Writes(a.call)
    ensures Get(After(actions + more).handles, n) == Get(After(actions).handles, n)
    ensures var s := After(actions + more);
      forall u :: u in s.threads && Busy(s.threads[u]) ==> n !in s.threads[u].changes
    decreases |more|
  {
    hide Inv, MayBegin, RunThread, Get;
    if more == [] {
      assert actions + more == actions;
    } else {
      var k := |more| - 1;
      var all := actions + more;
      assert all[..|all| - 1] == actions + more[..k] && all[|all| - 1] == more[k];
      Undisturbed(actions, more[..k], n);
      EveryInterleaving(actions + more[..k]);
      UndisturbedStep(After(actions + more[..k]), more[k], n);
    }
  }

  lemma UndisturbedStep(s: State, action: Action, n: Name)
    requires Inv(s) && forall u :: u in s.threads && Busy(s.threads[u]) ==> n !in s.threads[u].changes
    requires action.Begin? ==> n !in Writes(action.call)
    ensures var s' := Do(s, action);
      && Get(s'.handles, n) == Get(s.handles, n)
      && forall u :: u in s'.threads && Busy(s'.threads[u]) ==> n !in s'.threads[u].changes
  {
    hide BlockInv, PhaseInv, HandleInv, Fits, RunThread, Get, NamesFit;
    if action.Run? && action.t in s.threads {
      StepElsewhere(s, action.t, n);
      if RunThread(s, action.t) != s {
        StepWorks(s, action.t);
        StepNames(s, action.t);
      }
    }
  }

  lemma StepNames(s: State, t: Thread)
    requires t in s.threads && RunThread(s, t) != s
    ensures t in RunThread(s, t).threads && RunThread(s, t).threads[t].changes == s.threads[t].changes
    ensures Busy(s.threads[t])
  {
    if s.threads[t].phase == Ready {
      hide DoTask;
      TaskBookkeeping(s, t);
    }
  }

  /** Whatever a busy thread changes, no other busy thread does. */
  lemma Alone(s: State, t: Thread, n: Name)
    requires Inv(s) && t in s.threads && Busy(s.threads[t]) && n in s.threads[t].changes + s.threads[t].looksAt
    ensures forall u :: u in s.threads && u != t && Busy(s.threads[u]) ==> n !in s.threads[u].changes
  {
  }

  /**
   A finished call has left in its handles exactly what it promises, whatever the other threads
   did meanwhile: each value comes from a handle as it was when the call began, is null, or is
   the handle on the block made by the call.
   */
  lemma FinishedCall(before: seq<Action>, t: Thread, call: Call, during: seq<Action>, n: Name) returns (made: Handle)
    requires During(before, t, call, during)
    requires var s := After(before + [Begin(t, call)] + during); t in s.threads && !Busy(s.threads[t])
    requires n in Writes(call) + Reads(call)
    ensures var s0, s := After(before), After(before + [Begin(t, call)] + during);
      && Get(s.handles, n) == Value(Promise(call, n), s0.handles, made)
      && (Promise(call, n) == Made ==>
            && made.cb.Some? && made.cb.value !in s0.blocks
            && made.ptr == if call.hasObject then made.cb else None)
  {
    hide Inv, RunThread, Do, Fits;
    var m := CallOnTrack(before, t, call, during);
    made := if m.Some? then m.value else NULL;
    TasksKeepPromise(call, After(before).handles, n);
    EveryInterleaving(before);
    if Promise(call, n) == Made {
      assert New(if call.Construct? then call.h else call.made, call.hasObject) in Tasks(call);
    }
  }

  /** And there it stays, through any further run, until a member function that changes the handle begins. */
  lemma PromiseLasts(before: seq<Action>, t: Thread, call: Call, during: seq<Action>, more: seq<Action>, n: Name)
    returns (made: Handle)
    requires During(before, t, call, during) && n in Writes(call) + Reads(call)
    requires var s := After(before + [Begin(t, call)] + during); t in s.threads && !Busy(s.threads[t])
    requires forall a :: a in more && a.Begin? ==> n !in Writes(a.call)
    ensures var s0, s := After(before), After(before + [Begin(t, call)] + during + more);
      Get(s.handles, n) == Value(Promise(call, n), s0.handles, made)
  {
    made := FinishedCall(before, t, call, during, n);
    NobodyElse(before, t, call, during, n);
    Undisturbed(before + [Begin(t, call)] + during, more, n);
  }

  lemma {:induction false} NobodyElse(before: seq<Action>, t: Thread, call: Call, during: seq<Action>, n: Name)
    requires During(before, t, call, during) && n in Writes(call) + Reads(call)
    ensures var s := After(before + [Begin(t, call)] + during);
      forall u :: u in s.threads && u != t && Busy(s.threads[u]) ==> n !in s.threads[u].changes
  {
    hide Inv, OnTrack, Do, RunThread;
    var all := before + [Begin(t, call)] + during;
    if during == [] {
      assert all == before + [Begin(t, call)];
      AfterOneMore(before, Begin(t, call));
      NobodyElseAtFirst(After(before), t, call, n);
    } else {
      hide MayBegin;
      var k := |during| - 1;
      var first := before + [Begin(t, call)] + during[..k];
      assert all == first + [during[k]];
      AfterOneMore(first, during[k]);
      forall i | 0 <= i < k ensures during[..k][..i] == during[..i] {}
      var made := CallOnTrack(before, t, call, during[..k]);
      OnTrackNames(After(before), After(first), t, call, made);
      EveryInterleaving(first);
      hide During, After;
      Alone(After(first), t, n);
      OthersKeepOff(After(first), t, during[k], n);
    }
  }

  lemma NobodyElseAtFirst(s: State, t: Thread, call: Call, n: Name)
    requires MayBegin(s, t, call) && n in Writes(call) + Reads(call)
    ensures var s' := Do(s, Begin(t, call));
      forall u :: u in s'.threads && u != t && Busy(s'.threads[u]) ==> n !in s'.threads[u].changes
  {
  }

  lemma OthersKeepOff(s: State, t: Thread, action: Action, n: Name)
    requires Inv(s) && t in s.threads && Busy(s.threads[t]) && n in s.threads[t].changes + s.threads[t].looksAt
    requires forall u :: u in s.threads && u != t && Busy(s.threads[u]) ==> n !in s.threads[u].changes
    ensures var s' := Do(s, action);
      forall u :: u in s'.threads && u != t && Busy(s'.threads[u]) ==> n !in s'.threads[u].changes
  {
    hide BlockInv, PhaseInv, HandleInv, Fits, RunThread, NamesFit;
    if action.Run? && action.t in s.threads && RunThread(s, action.t) != s {
      StepWorks(s, action.t);
      StepNames(s, action.t);
    }
  }
}
