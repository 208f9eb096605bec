/**
 What each member function of the shared pointer does, over whole runs: its effect on the
 handles and the count it returns, in terms of the state in which it began.
 */
module SharedPointerCalls {
  import opened Wrappers
  import opened SharedPointer

  /** After `before`, thread `t` begins `call`, and with the last action of `during` it ends. */
  ghost predicate Complete(before: seq<Action>, t: Thread, call: Call, during: seq<Action>) {
    && During(before, t, call, during)
    && var s := After(before + [Begin(t, call)] + during); t in s.threads && !Busy(s.threads[t])
  }

  // ----- every call can begin, and ends -----

  /** With nobody inside a member function, any of them may begin: on new names for what it constructs. */
  lemma CallsBegin(s: State, t: Thread, h: Name, other: Name, tmp: Name, made: Name, hasObject: bool)
    requires forall u :: u in s.threads ==> !Busy(s.threads[u])
    ensures MayBegin(s, t, GetCount(h)) && MayBegin(s, t, Destroy(h)) && MayBegin(s, t, MoveAssign(h, other))
    ensures Get(s.handles, h) == NULL ==> MayBegin(s, t, Construct(h, hasObject))
    ensures Get(s.handles, h) == NULL && h != other ==>
              MayBegin(s, t, CopyConstruct(h, other)) && MayBegin(s, t, MoveConstruct(h, other))
    ensures Get(s.handles, tmp) == NULL && tmp != h && tmp != other ==> MayBegin(s, t, CopyAssign(h, other, tmp))
    ensures Get(s.handles, tmp) == NULL && Get(s.handles, made) == NULL && h != tmp && h != made && tmp != made ==>
              MayBegin(s, t, Reset(h, hasObject, tmp, made))
  {
  }

  /** While one thread copies a handle, others may copy it and ask for its count, but not change it. */
  lemma SharedReads(s: State, u: Thread, t: Thread, h: Name, dst: Name)
    requires t != u && u in s.threads && (t in s.threads ==> !Busy(s.threads[t]))
    requires Busy(s.threads[u]) && s.threads[u].looksAt == {h} && s.threads[u].changes !! {h, dst}
    requires forall v :: v in s.threads && v != u ==> !Busy(s.threads[v])
    requires Get(s.handles, dst) == NULL && dst != h
    ensures MayBegin(s, t, CopyConstruct(dst, h)) && MayBegin(s, t, GetCount(h))
    ensures !MayBegin(s, t, Destroy(h)) && !MayBegin(s, t, MoveConstruct(dst, h))
  {
    assert h in Writes(Destroy(h)) && h in Writes(MoveConstruct(dst, h));
  }

  lemma {:induction false} NamesOf(threads: set<Thread>) returns (names: seq<Thread>)
    ensures forall t :: t in threads ==> t in names
  {
    if threads == {} {
      names := [];
    } else {
      var t :| t in threads;
      names := NamesOf(threads - {t});
      names := names + [t];
    }
  }

  /** Every call that may begin can be run to its end. */
  lemma CanComplete(before: seq<Action>, t: Thread, call: Call) returns (during: seq<Action>)
    requires MayBegin(After(before), t, call)
    ensures Complete(before, t, call, during)
  {
    hide MayBegin, RunThread;
    var begun := before + [Begin(t, call)];
    AfterOneMore(before, Begin(t, call));
    var names := NamesOf(After(begun).threads.Keys);
    var more := EveryCallEnds(begun, names);
    StillThere(begun, more, t);
    during := FirstIdle(begun, more, t, 0);
  }

  lemma {:induction false} StillThere(actions: seq<Action>, more: seq<Action>, t: Thread)
    requires t in After(actions).threads
    ensures t in After(actions + more).threads
    decreases |more|
  {
    hide MayBegin, RunThread;
    if more == [] {
      assert actions + more == actions;
    } else {
      var n := |more| - 1;
      StillThere(actions, more[..n], t);
      assert actions + more == (actions + more[..n]) + [more[n]];
      AfterOneMore(actions + more[..n], more[n]);
      EveryInterleaving(actions + more[..n]);
      StepStays(After(actions + more[..n]), more[n], t);
    }
  }

  lemma StepStays(s: State, action: Action, t: Thread)
    requires Inv(s) && t in s.threads
    ensures t in Do(s, action).threads
  {
    hide Inv, MayBegin, RunThread;
    if action.Run? && action.t in s.threads && RunThread(s, action.t) != s {
      StepWorks(s, action.t);
    }
  }

  lemma {:induction false} FirstIdle(begun: seq<Action>, more: seq<Action>, t: Thread, from: nat)
                                     returns (during: seq<Action>)
    requires t in After(begun).threads && from <= |more|
    requires t in After(begun + more).threads && !Busy(After(begun + more).threads[t])
    requires forall k {:trigger more[..k]} :: 0 <= k < from ==>
             var s := After(begun + more[..k]); t in s.threads && Busy(s.threads[t])
    ensures forall k {:trigger during[..k]} :: 0 <= k < |during| ==>
              var s := After(begun + during[..k]); t in s.threads && Busy(s.threads[t])
    ensures t in After(begun + during).threads && !Busy(After(begun + during).threads[t])
    decreases |more| - from
  {
    hide After;
    assert more[..|more|] == more;
    StillThere(begun, more[..from], t);
    if Busy(After(begun + more[..from]).threads[t]) {
      during := FirstIdle(begun, more, t, from + 1);
    } else {
      during := more[..from];
      forall k | 0 <= k < |during| ensures during[..k] == more[..k] {}
    }
  }

  // ----- what each call does to the handles -----

  /** A constructed handle is on a block of its own that did not exist before. */
  lemma Constructed(before: seq<Action>, t: Thread, h: Name, hasObject: bool, during: seq<Action>)
    requires Complete(before, t, Construct(h, hasObject), during)
    ensures var v := Get(After(before + [Begin(t, Construct(h, hasObject))] + during).handles, h);
      && v.cb.Some? && v.cb.value !in After(before).blocks
      && v.ptr == if hasObject then v.cb else None
  {
    hide During, After;
    var made := FinishedCall(before, t, Construct(h, hasObject), during, h);
  }

  /** A copy is where its source was, and the source stays there. */
  lemma CopyConstructed(before: seq<Action>, t: Thread, h: Name, other: Name, during: seq<Action>)
    requires Complete(before, t, CopyConstruct(h, other), during)
    ensures var s0, s := After(before), After(before + [Begin(t, CopyConstruct(h, other))] + during);
      Get(s.handles, h) == Get(s.handles, other) == Get(s0.handles, other)
  {
    var distinct := h != other;
    hide During, After;
    var made := FinishedCall(before, t, CopyConstruct(h, other), during, h);
    made := FinishedCall(before, t, CopyConstruct(h, other), during, other);
  }

  /** A moved handle is where its source was, and the source is null. */
  lemma MoveConstructed(before: seq<Action>, t: Thread, h: Name, other: Name, during: seq<Action>)
    requires Complete(before, t, MoveConstruct(h, other), during)
    ensures var s0, s := After(before), After(before + [Begin(t, MoveConstruct(h, other))] + during);
      Get(s.handles, h) == Get(s0.handles, other) && Get(s.handles, other) == NULL
  {
    assert h != other;
    hide During, After;
    var made := FinishedCall(before, t, MoveConstruct(h, other), during, h);
    made := FinishedCall(before, t, MoveConstruct(h, other), during, other);
  }

  /** Copy assignment, also to itself: both handles are where the source was, and the temporary is gone. */
  lemma CopyAssigned(before: seq<Action>, t: Thread, h: Name, other: Name, tmp: Name, during: seq<Action>)
    requires Complete(before, t, CopyAssign(h, other, tmp), during)
    ensures var s0, s := After(before), After(before + [Begin(t, CopyAssign(h, other, tmp))] + during);
      && Get(s.handles, h) == Get(s.handles, other) == Get(s0.handles, other)
      && Get(s.handles, tmp) == NULL
  {
    assert tmp != h && tmp != other && Get(After(before).handles, tmp) == NULL;
    hide During, After;
    var made := FinishedCall(before, t, CopyAssign(h, other, tmp), during, h);
    made := FinishedCall(before, t, CopyAssign(h, other, tmp), during, other);
    made := FinishedCall(before, t, CopyAssign(h, other, tmp), during, tmp);
  }

  /** Move assignment: the destination is where the source was, which is null; to itself it changes nothing. */
  lemma MoveAssigned(before: seq<Action>, t: Thread, h: Name, other: Name, during: seq<Action>)
    requires Complete(before, t, MoveAssign(h, other), during)
    ensures var s0, s := After(before), After(before + [Begin(t, MoveAssign(h, other))] + during);
      && Get(s.handles, h) == Get(s0.handles, other)
      && (h != other ==> Get(s.handles, other) == NULL)
  {
    hide During, After;
    var made := FinishedCall(before, t, MoveAssign(h, other), during, h);
    made := FinishedCall(before, t, MoveAssign(h, other), during, other);
  }

  /** Reset puts the handle on a new block for its pointer, or makes it null; its temporaries are gone. */
  lemma ResetDone(before: seq<Action>, t: Thread, h: Name, hasObject: bool, tmp: Name, made: Name, during: seq<Action>)
    requires Complete(before, t, Reset(h, hasObject, tmp, made), during)
    ensures var s0, s := After(before), After(before + [Begin(t, Reset(h, hasObject, tmp, made))] + during);
      && Get(s.handles, tmp) == NULL && Get(s.handles, made) == NULL
      && var v := Get(s.handles, h);
      if hasObject then v.cb.Some? && v.cb.value !in s0.blocks && v.ptr == v.cb else v == NULL
  {
    var call := Reset(h, hasObject, tmp, made);
    assert NamesFit(call, After(before).handles);
    hide During, After;
    var new' := FinishedCall(before, t, call, during, h);
    new' := FinishedCall(before, t, call, during, tmp);
    new' := FinishedCall(before, t, call, during, made);
  }

  /** A destroyed handle is on nothing. */
  lemma Destroyed(before: seq<Action>, t: Thread, h: Name, during: seq<Action>)
    requires Complete(before, t, Destroy(h), during)
    ensures Get(After(before + [Begin(t, Destroy(h))] + during).handles, h) == NULL
  {
    hide During, After;
    var made := FinishedCall(before, t, Destroy(h), during, h);
  }

  // ----- the count that is returned -----

  /** How far `get_count` on a handle holding `v` is; `read` is the count it has read, if it has. */
  ghost predicate Looking(r: Running, h: Name, v: Handle, read: Option<int>) {
    && r.seen == (if read.Some? then read.value else 0)
    && (|| (r.todo == [Look(h)] && r.phase == Ready && read == None)
        || (r.todo == [] && read == None && v.cb.Some?
            && (r.phase == Waiting(v.cb.value, Read(h)) || r.phase == Locked(v.cb.value, Read(h))))
        || (r.todo == [] && read == None && v.cb.None? && r.phase == Ready)
        || (r.todo == [] && read.Some? && v.cb.Some?
            && (r.phase == Unlocking(v.cb.value, false) || r.phase == Ready)))
  }

  ghost predicate CountThere(s: State, v: Handle, count: int) {
    v.cb.Some? && v.cb.value in s.blocks && count == s.blocks[v.cb.value].count > 0
  }

  lemma OwnLook(s: State, t: Thread, h: Name, v: Handle, read: Option<int>) returns (read': Option<int>)
    requires t in s.threads && Looking(s.threads[t], h, v, read) && Busy(s.threads[t]) && Get(s.handles, h) == v
    requires s.threads[t].phase != Ready ==>
               v.cb.value in s.blocks && s.blocks[v.cb.value].blockDeletes == 0 && s.blocks[v.cb.value].count > 0
    ensures t in RunThread(s, t).threads && Looking(RunThread(s, t).threads[t], h, v, read')
    ensures read' == read || (read'.Some? && CountThere(s, v, read'.value))
  {
    read' := if s.threads[t].phase.Locked? then Some(s.blocks[v.cb.value].count) else read;
  }

  /** The block that is looked at is alive. */
  lemma LookedAt(s: State, t: Thread, h: Name, v: Handle, read: Option<int>)
    requires Inv(s) && t in s.threads && Looking(s.threads[t], h, v, read) && s.threads[t].phase != Ready
    requires Get(s.handles, h) == v
    ensures v.cb.value in s.blocks && s.blocks[v.cb.value].blockDeletes == 0 && s.blocks[v.cb.value].count > 0
  {
    HeldBlock(s, h);
    hide CountIf, Fits, HandleInv, Separate, TodoInv, PhaseInv;
    assert BlockInv(s, v.cb.value);
  }

  lemma LookStep(s: State, action: Action, t: Thread, h: Name, v: Handle, read: Option<int>)
                 returns (read': Option<int>)
    requires Inv(s) && t in s.threads && Looking(s.threads[t], h, v, read) && Busy(s.threads[t])
    requires Get(s.handles, h) == v
    ensures t in Do(s, action).threads && Looking(Do(s, action).threads[t], h, v, read')
    ensures read' == read || (read'.Some? && CountThere(s, v, read'.value))
  {
    hide Inv, RunThread, Looking;
    read' := read;
    if action == Run(t) {
      if s.threads[t].phase != Ready { LookedAt(s, t, h, v, read); }
      read' := OwnLook(s, t, h, v, read);
    } else if action.Run? && action.t in s.threads && RunThread(s, action.t) != s {
      StepWorks(s, action.t);
    }
  }

  /** A handle that a call reads and does not change holds the same value at each of its steps. */
  lemma {:induction false} HeldDuring(before: seq<Action>, t: Thread, call: Call, during: seq<Action>, n: Name)
    requires During(before, t, call, during) && n in Reads(call) && n !in Writes(call)
    ensures Get(After(before + [Begin(t, call)] + during).handles, n) == Get(After(before).handles, n)
    decreases |during|
  {
    hide Inv, OnTrack, Do, RunThread;
    var all := before + [Begin(t, call)] + during;
    if during == [] {
      assert all == before + [Begin(t, call)];
      AfterOneMore(before, Begin(t, call));
      BeginHolds(After(before), Begin(t, call), n);
    } else {
      hide MayBegin;
      var k := |during| - 1;
      var first := before + [Begin(t, call)] + during[..k];
      assert all == first + [during[k]];
      AfterOneMore(first, during[k]);
      forall i | 0 <= i < k ensures during[..k][..i] == during[..i] {}
      HeldDuring(before, t, call, during[..k], n);
      var made := CallOnTrack(before, t, call, during[..k]);
      OnTrackNames(After(before), After(first), t, call, made);
      EveryInterleaving(first);
      hide During, After;
      Alone(After(first), t, n);
      HeldStep(After(first), t, during[k], n);
    }
  }

  lemma BeginHolds(s: State, action: Action, n: Name)
    requires action.Begin?
    ensures Get(Do(s, action).handles, n) == Get(s.handles, n)
  {
    hide MayBegin;
  }

  lemma HeldStep(s: State, t: Thread, action: Action, n: Name)
    requires Inv(s) && t in s.threads && n !in s.threads[t].changes
    requires forall u :: u in s.threads && u != t && Busy(s.threads[u]) ==> n !in s.threads[u].changes
    ensures Get(Do(s, action).handles, n) == Get(s.handles, n)
  {
    hide BlockInv, PhaseInv, HandleInv, Fits, RunThread, Get, MayBegin;
    if action.Begin? {
      BeginHolds(s, action, n);
    } else if action.t in s.threads {
      StepElsewhere(s, action.t, n);
    }
  }

  /** Throughout `get_count` its thread is on the way to reading the count of the block its handle is on. */
  lemma {:induction false} LookRun(before: seq<Action>, t: Thread, h: Name, during: seq<Action>)
    returns (read: Option<int>, at: nat)
    requires During(before, t, GetCount(h), during)
    ensures var begun := before + [Begin(t, GetCount(h))];
      var v, s := Get(After(before).handles, h), After(begun + during);
      && t in s.threads && Looking(s.threads[t], h, v, read)
      && (read.Some? ==> at < |during| && CountThere(After(begun + during[..at]), v, read.value))
    decreases |during|
  {
    hide Inv, RunThread, CountThere, Looking;
    var begun := before + [Begin(t, GetCount(h))];
    var v := Get(After(before).handles, h);
    AfterOneMore(before, Begin(t, GetCount(h)));
    at := 0;
    if during == [] {
      read := None;
      assert begun + during == begun;
      LookBegins(After(before), t, h, v);
    } else {
      var k := |during| - 1;
      assert begun + during == (begun + during[..k]) + [during[k]];
      AfterOneMore(begun + during[..k], during[k]);
      forall i | 0 <= i < k ensures during[..k][..i] == during[..i] {}
      read, at := LookRun(before, t, h, during[..k]);
      EveryInterleaving(begun + during[..k]);
      HeldDuring(before, t, GetCount(h), during[..k], h);
      hide Do, MayBegin;
      var read' := LookStep(After(begun + during[..k]), during[k], t, h, v, read);
      if read' != read { at := k; }
      read := read';
    }
  }

  lemma LookBegins(s: State, t: Thread, h: Name, v: Handle)
    requires MayBegin(s, t, GetCount(h))
    ensures var s' := Do(s, Begin(t, GetCount(h))); t in s'.threads && Looking(s'.threads[t], h, v, None)
  {
  }

  /**
   What `get_count` returns, whatever other threads do meanwhile: 0 on a handle without a block;
   otherwise the count that the handle's block has at some moment within the call, which is
   positive and is every reference counted at that moment.
   */
  lemma CountReturned(before: seq<Action>, t: Thread, h: Name, during: seq<Action>) returns (at: nat)
    requires Complete(before, t, GetCount(h), during)
    ensures var begun := before + [Begin(t, GetCount(h))];
      var v, seen := Get(After(before).handles, h), After(begun + during).threads[t].seen;
      if v.cb.None? then seen == 0
      else
        at < |during| &&
        var m, b := After(begun + during[..at]), v.cb.value;
        && b in m.blocks && seen == m.blocks[b].count > 0
        && seen == Holding(m, b) + Releasing(m, b) - Copying(m, b) + m.skipped[b]
        && (m.blocks[b].hasObject ==> m.skipped[b] == 0)
  {
    hide Do, MayBegin, CountIf;
    var begun := before + [Begin(t, GetCount(h))];
    var read;
    read, at := LookRun(before, t, h, during);
    if read.Some? {
      CountMeaning(begun + during[..at], Get(After(before).handles, h).cb.value);
    }
  }

  lemma ReadsCount(s: State, t: Thread, b: BlockId)
    requires t in s.threads && b in s.blocks && s.blocks[b].blockDeletes == 0
    requires s.threads[t].phase.Locked? && s.threads[t].phase.b == b && s.threads[t].phase.job.Read?
    ensures Do(s, Run(t)) ==
            s.(threads := s.threads[t := s.threads[t].(phase := Unlocking(b, false), seen := s.blocks[b].count)])
  {
  }

  lemma LookStarts(run: seq<Action>, s: State) returns (longer: seq<Action>, s': State)
    requires After(run) == s && s.threads == map[0 := Running([], Ready, {1}, {}, 0)]
    requires 1 in s.handles && s.handles[1] == Handle(Some(0), Some(0))
    ensures longer == run + [Begin(0, GetCount(1)), Run(0)] && After(longer) == s'
    ensures s' == s.(threads := map[0 := Running([], Waiting(0, Read(1)), {}, {1}, 0)])
  {
    var r := Running([Look(1)], Ready, {}, {1}, 0);
    var begun := s.(threads := map[0 := r]);
    longer := Then(run, s, Begin(0, GetCount(1)), begun);
    assert r.todo[1..] == [];
    s' := s.(threads := map[0 := r.(todo := [], phase := Waiting(0, Read(1)))]);
    longer := Then(longer, begun, Run(0), s');
  }

  /** A handle that is alone on its object reads 1. */
  lemma CountOfOne() returns (run: seq<Action>)
    ensures run == [Begin(0, Construct(1, true)), Run(0)] + [Begin(0, GetCount(1)), Run(0)] + [Run(0), Run(0), Run(0)]
    ensures 0 in After(run).threads && !Busy(After(run).threads[0]) && After(run).threads[0].seen == 1
  {
    hide Do, RunThread;
    var s;
    run, s := FirstHandle(true);
    run, s := LookStarts(run, s);
    TakesFreeLock(s, 0, 0);
    var inside := With(s, 0, s.blocks[0].(holder := Some(0)), Locked(0, Read(1)));
    run := Then(run, s, Run(0), inside);
    ReadsCount(inside, 0, 0);
    var done := inside.(threads := inside.threads[0 := inside.threads[0].(phase := Unlocking(0, false), seen := 1)]);
    run := Then(run, inside, Run(0), done);
    LeavesLock(done, 0, 0);
    run := Then(run, done, Run(0), With(done, 0, done.blocks[0].(holder := None), Ready));
  }
}
