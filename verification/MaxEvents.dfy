/** Attending as many events as possible, one a day, always the one that ends first. */
module MaxEvents {
  import opened Containers

  datatype Event = Event(start: int, end: int)

  datatype Visit = Visit(event: Event, day: int)

  ghost function EventsOf(plan: seq<Visit>): seq<Event> {
    seq(|plan|, i requires 0 <= i < |plan| => plan[i].event)
  }

  /** Distinct days, none before `from`, each inside its event; no event used more often than the pool has it. */
  ghost predicate Feasible(plan: seq<Visit>, pool: multiset<Event>, from: int) {
    && (forall v :: v in plan ==> from <= v.day && v.event.start <= v.day <= v.event.end)
    && (forall i, j :: 0 <= i < j < |plan| ==> plan[i].day != plan[j].day)
    && multiset(EventsOf(plan)) <= pool
  }

  ghost predicate IsMaximum(pool: multiset<Event>, from: int, count: int) {
    && (exists plan :: Feasible(plan, pool, from) && |plan| == count)
    && (forall plan :: Feasible(plan, pool, from) ==> |plan| <= count)
  }

  /** Every plan for `all` from day 0 has a counterpart in `pool` from `day` that is at most `done` visits shorter. */
  ghost predicate NothingLost(all: multiset<Event>, pool: multiset<Event>, day: int, done: int) {
    forall plan :: Feasible(plan, all, 0) ==> exists later :: Feasible(later, pool, day) && |later| + done >= |plan|
  }

  // ----- plans -----

  function Without<T>(s: seq<T>, k: nat): seq<T>
    requires k < |s|
  {
    s[..k] + s[k + 1..]
  }

  /** Two events of the same single day: exactly one can be visited, on that day. */
  lemma SingleDayExample(day: nat)
    ensures IsMaximum(multiset{Event(day, day), Event(day, day)}, 0, 1)
  {
    var pool, plan := multiset{Event(day, day), Event(day, day)}, [Visit(Event(day, day), day)];
    assert EventsOf(plan) == [Event(day, day)];
    assert Feasible(plan, pool, 0);
    forall other: seq<Visit> | Feasible(other, pool, 0) ensures |other| <= 1 {
      VisitsInPool(other, pool, 0);
      assert |other| > 1 ==> other[0].day != other[1].day;
      assert forall v :: v in other ==> v.day == day;
    }
  }

  lemma VisitsInPool(plan: seq<Visit>, pool: multiset<Event>, from: int)
    requires Feasible(plan, pool, from)
    ensures forall v :: v in plan ==> v.event in pool
  {
    forall v | v in plan ensures v.event in pool {
      var i :| 0 <= i < |plan| && plan[i] == v;
      assert EventsOf(plan)[i] == v.event;
      assert v.event in multiset(EventsOf(plan));
    }
  }

  lemma DropVisit(plan: seq<Visit>, pool: multiset<Event>, from: int, k: nat)
    requires Feasible(plan, pool, from) && k < |plan|
    ensures Feasible(Without(plan, k), pool - multiset{plan[k].event}, from)
    ensures forall v :: v in Without(plan, k) ==> v in plan && v.day != plan[k].day
  {
    var rest := Without(plan, k);
    forall i | 0 <= i < |rest| ensures rest[i] == plan[if i < k then i else i + 1] {}
    forall v | v in rest ensures v in plan && v.day != plan[k].day {
      var i :| 0 <= i < |rest| && rest[i] == v;
      assert v == plan[if i < k then i else i + 1];
    }
    var e := EventsOf(plan);
    assert EventsOf(rest) == Without(e, k);
    assert e == e[..k] + [e[k]] + e[k + 1..];
  }

  /** An event no visit uses can leave the pool. */
  lemma DropUnused(plan: seq<Visit>, pool: multiset<Event>, from: int, e: Event)
    requires Feasible(plan, pool, from) && forall v :: v in plan ==> v.event != e
    ensures Feasible(plan, pool - multiset{e}, from)
  {
  }

  lemma MoveVisit(plan: seq<Visit>, pool: multiset<Event>, from: int, k: nat, day: int)
    requires Feasible(plan, pool, from) && k < |plan|
    requires from <= day && plan[k].event.start <= day <= plan[k].event.end
    requires forall v :: v in plan ==> v.day != day
    ensures Feasible(plan[k := Visit(plan[k].event, day)], pool, from)
  {
    var moved := plan[k := Visit(plan[k].event, day)];
    assert EventsOf(moved) == EventsOf(plan);
    assert forall v :: v in moved ==> v == moved[k] || v in plan;
    assert forall i :: 0 <= i < |plan| ==> plan[i] in plan;
  }

  lemma LaterDay(plan: seq<Visit>, pool: multiset<Event>, day: int)
    requires Feasible(plan, pool, day) && forall v :: v in plan ==> v.day != day
    ensures Feasible(plan, pool, day + 1)
  {
  }

  // ----- what one day of the greedy loop costs -----

  /** Exchange: attending, today, an open event that ends first costs any plan at most one visit. */
  lemma AttendFirstEnding(plan: seq<Visit>, pool: multiset<Event>, day: int, e: Event) returns (later: seq<Visit>)
    requires Feasible(plan, pool, day)
    requires e in pool && e.start <= day <= e.end
    requires forall f :: f in pool && f.start <= day ==> e.end <= f.end
    ensures Feasible(later, pool - multiset{e}, day + 1) && |later| + 1 >= |plan|
  {
    VisitsInPool(plan, pool, day);
    later := plan;
    if j :| 0 <= j < |plan| && plan[j].event == e {
      if k :| 0 <= k < |plan| && plan[k].day == day && k != j {
        // The visit of `day` takes over the day that `e` leaves.
        later := Without(plan, j);
        DropVisit(plan, pool, day, j);
        var k' := if k < j then k else k - 1;
        assert later[k'] == plan[k] && plan[k] in plan && plan[j] in plan;
        MoveVisit(later, pool - multiset{e}, day, k', plan[j].day);
        var moved := later[k' := Visit(plan[k].event, plan[j].day)];
        forall v | v in moved ensures v.day != day {
          var i :| 0 <= i < |moved| && moved[i] == v;
          if i != k' { assert later[i].day != later[k'].day; }
        }
        later := moved;
      } else {
        DropVisit(plan, pool, day, j);
        later := Without(plan, j);
        forall v | v in later ensures v.day != day {
          var i :| 0 <= i < |plan| && plan[i] == v;
        }
      }
    } else {
      DropUnused(plan, pool, day, e);
      if k :| 0 <= k < |plan| && plan[k].day == day {
        DropVisit(plan, pool - multiset{e}, day, k);
        later := Without(plan, k);
        assert multiset(EventsOf(later)) <= pool - multiset{e};
      }
    }
    LaterDay(later, pool - multiset{e}, day);
  }

  lemma NothingLostAttending(all: multiset<Event>, pool: multiset<Event>, day: int, done: int, e: Event)
    requires NothingLost(all, pool, day, done)
    requires e in pool && e.start <= day <= e.end
    requires forall f :: f in pool && f.start <= day ==> e.end <= f.end
    ensures NothingLost(all, pool - multiset{e}, day + 1, done + 1)
  {
    forall plan | Feasible(plan, all, 0)
      ensures exists later :: Feasible(later, pool - multiset{e}, day + 1) && |later| + done + 1 >= |plan|
    {
      var mid :| Feasible(mid, pool, day) && |mid| + done >= |plan|;
      var later := AttendFirstEnding(mid, pool, day, e);
    }
  }

  lemma NothingLostExpiring(all: multiset<Event>, pool: multiset<Event>, day: int, done: int, e: Event)
    requires NothingLost(all, pool, day, done) && e.end < day
    ensures NothingLost(all, pool - multiset{e}, day, done)
  {
    forall plan | Feasible(plan, all, 0)
      ensures exists later :: Feasible(later, pool - multiset{e}, day) && |later| + done >= |plan|
    {
      var mid :| Feasible(mid, pool, day) && |mid| + done >= |plan|;
      DropUnused(mid, pool, day, e);
    }
  }

  lemma NothingLostResting(all: multiset<Event>, pool: multiset<Event>, day: int, done: int)
    requires NothingLost(all, pool, day, done) && forall e :: e in pool ==> day < e.start
    ensures NothingLost(all, pool, day + 1, done)
  {
    forall plan | Feasible(plan, all, 0)
      ensures exists later :: Feasible(later, pool, day + 1) && |later| + done >= |plan|
    {
      var mid :| Feasible(mid, pool, day) && |mid| + done >= |plan|;
      VisitsInPool(mid, pool, day);
      LaterDay(mid, pool, day);
    }
  }

  // ----- the loop -----

  ghost function EndsOf(open: seq<Event>): seq<int> {
    seq(|open|, i requires 0 <= i < |open| => open[i].end)
  }

  lemma PopOpen(open: seq<Event>, k: nat)
    requires k < |open|
    ensures multiset(EndsOf(Without(open, k))) == multiset(EndsOf(open)) - multiset{open[k].end}
    ensures multiset(Without(open, k)) == multiset(open) - multiset{open[k]}
  {
    var ends := EndsOf(open);
    assert EndsOf(Without(open, k)) == Without(ends, k);
    assert ends == ends[..k] + [ends[k]] + ends[k + 1..];
    assert open == open[..k] + [open[k]] + open[k + 1..];
  }

  lemma PushOpen(open: seq<Event>, e: Event)
    ensures multiset(EndsOf(open + [e])) == multiset(EndsOf(open)) + multiset{e.end}
  {
    assert EndsOf(open + [e]) == EndsOf(open) + [e.end];
  }

  /** An end on the heap belongs to an open event. */
  lemma FindOpen(open: seq<Event>, end: int) returns (k: nat)
    requires end in multiset(EndsOf(open))
    ensures k < |open| && open[k].end == end
  {
    k :| 0 <= k < |EndsOf(open)| && EndsOf(open)[k] == end;
  }

  lemma OpenEnds(open: seq<Event>)
    ensures forall e :: e in open ==> e.end in multiset(EndsOf(open))
  {
    forall e | e in open ensures e.end in multiset(EndsOf(open)) {
      var i :| 0 <= i < |open| && open[i] == e;
      assert EndsOf(open)[i] == e.end;
    }
  }

  lemma AddVisit(plan: seq<Visit>, used: multiset<Event>, from: int, e: Event, day: int)
    requires Feasible(plan, used, from) && forall v :: v in plan ==> v.day < day
    requires e.start <= day <= e.end && from <= day
    ensures Feasible(plan + [Visit(e, day)], used + multiset{e}, from)
  {
    var more := plan + [Visit(e, day)];
    assert EventsOf(more) == EventsOf(plan) + [e];
    assert forall i :: 0 <= i < |plan| ==> more[i] in plan;
  }

  lemma NothingLeft(all: multiset<Event>, pool: multiset<Event>, day: int, done: int)
    requires NothingLost(all, pool, day, done) && forall e :: e in pool ==> e.end < day
    ensures forall plan :: Feasible(plan, all, 0) ==> |plan| <= done
  {
  }

  /** With no event before day 0, the day-0 start of the loop excludes no plan at all. */
  lemma DayZeroSuffices(pool: multiset<Event>, plan: seq<Visit>, from: int)
    requires forall e :: e in pool ==> 0 <= e.start
    requires Feasible(plan, pool, from)
    ensures Feasible(plan, pool, 0)
  {
    VisitsInPool(plan, pool, from);
  }

  /** `open` are the events behind the ends on the heap, `plan` the visits made, of the events `used`. */
  datatype Trail = Trail(open: seq<Event>, plan: seq<Visit>, used: multiset<Event>)

  ghost function Pool(t: Trail, evs: seq<Event>, i: nat): multiset<Event>
    requires i <= |evs|
  {
    multiset(t.open) + multiset(evs[i..])
  }

  ghost predicate Loop(t: Trail, evs: seq<Event>, i: nat, heap: multiset<int>, day: int, ret: int) {
    && i <= |evs| && 0 <= day
    && heap == multiset(EndsOf(t.open))
    && (forall e :: e in t.open ==> e.start <= day)
    && NothingLost(multiset(evs), Pool(t, evs, i), day, ret)
    && Feasible(t.plan, t.used, 0) && |t.plan| == ret && (forall v :: v in t.plan ==> v.day < day)
    && t.used + Pool(t, evs, i) <= multiset(evs)
  }

  lemma LoopStarts(evs: seq<Event>)
    ensures Loop(Trail([], [], multiset{}), evs, 0, multiset{}, 0, 0)
  {
  }

  lemma Enters(t: Trail, evs: seq<Event>, i: nat, heap: multiset<int>, day: int, ret: int) returns (t': Trail)
    requires Loop(t, evs, i, heap, day, ret) && i < |evs| && evs[i].start <= day
    ensures Loop(t', evs, i + 1, heap + multiset{evs[i].end}, day, ret)
  {
    hide NothingLost, Feasible, EndsOf;
    t' := t.(open := t.open + [evs[i]]);
    PushOpen(t.open, evs[i]);
    assert evs[i..] == [evs[i]] + evs[i + 1..];
    assert Pool(t', evs, i + 1) == Pool(t, evs, i);
  }

  lemma Expires(t: Trail, evs: seq<Event>, i: nat, heap: multiset<int>, day: int, ret: int, end: int)
    returns (t': Trail)
    requires Loop(t, evs, i, heap, day, ret) && end in heap && end < day
    ensures Loop(t', evs, i, heap - multiset{end}, day, ret)
  {
    hide NothingLost, Feasible, EndsOf;
    var k := FindOpen(t.open, end);
    PopOpen(t.open, k);
    t' := t.(open := Without(t.open, k));
    NothingLostExpiring(multiset(evs), Pool(t, evs, i), day, ret, t.open[k]);
    assert Pool(t', evs, i) == Pool(t, evs, i) - multiset{t.open[k]};
  }

  lemma Attends(t: Trail, evs: seq<Event>, i: nat, heap: multiset<int>, day: int, ret: int, end: int)
    returns (t': Trail)
    requires Loop(t, evs, i, heap, day, ret) && end in heap && day <= end
    requires forall x :: x in heap ==> end <= x
    requires forall e :: e in evs[i..] ==> day < e.start
    ensures Loop(t', evs, i, heap - multiset{end}, day + 1, ret + 1)
  {
    hide NothingLost, Feasible, EndsOf;
    var k := FindOpen(t.open, end);
    var e := t.open[k];
    PopOpen(t.open, k);
    OpenEnds(t.open);
    assert e in t.open;
    t' := Trail(Without(t.open, k), t.plan + [Visit(e, day)], t.used + multiset{e});
    NothingLostAttending(multiset(evs), Pool(t, evs, i), day, ret, e);
    AddVisit(t.plan, t.used, 0, e, day);
    assert Pool(t', evs, i) == Pool(t, evs, i) - multiset{e};
  }

  lemma Rests(t: Trail, evs: seq<Event>, i: nat, day: int, ret: int)
    requires Loop(t, evs, i, multiset{}, day, ret)
    requires forall e :: e in evs[i..] ==> day < e.start
    ensures Loop(t, evs, i, multiset{}, day + 1, ret)
  {
    OpenEnds(t.open);
    NothingLostResting(multiset(evs), Pool(t, evs, i), day, ret);
  }

  lemma LoopEnds(t: Trail, evs: seq<Event>, i: nat, heap: multiset<int>, day: int, ret: int)
    requires Loop(t, evs, i, heap, day, ret)
    requires forall e :: e in evs ==> e.end < day
    ensures IsMaximum(multiset(evs), 0, ret)
  {
    var pool := Pool(t, evs, i);
    assert forall e :: e in pool ==> e in multiset(evs);
    NothingLeft(multiset(evs), pool, day, ret);
    assert Feasible(t.plan, multiset(evs), 0);
  }

  const BY_START: Event -> int := (e: Event) => e.start

  lemma SortedStarts(evs: seq<Event>)
    requires SortedBy(evs, BY_START)
    ensures forall j, k :: 0 <= j < k < |evs| ==> evs[j].start <= evs[k].start
  {
  }

  /** The greedy count is the largest number of events any plan can visit on days from 0 on. */
  method MaxEvents(events: array<Event>) returns (ret: int)
    modifies events
    ensures multiset(events[..]) == multiset(old(events[..]))
    ensures IsMaximum(multiset(old(events[..])), 0, ret)
  {
    hide Loop, IsMaximum, SortedBy;
    SortBy(events, BY_START);
    ghost var evs := events[..];
    SortedStarts(evs);
    assert forall j :: 0 <= j < events.Length ==> events[j] == evs[j];

    var maxDay := 0;
    for n := 0 to events.Length
      invariant maxDay >= 0 && forall j :: 0 <= j < n ==> evs[j].end <= maxDay
    {
      maxDay := if events[n].end > maxDay then events[n].end else maxDay;
    }

    var minHeap: multiset<int> := multiset{};
    ret := 0;
    var i, day := 0, 0;
    ghost var t := Trail([], [], multiset{});
    LoopStarts(evs);
    while day <= maxDay
      invariant 0 <= i <= |evs| && 0 <= day <= maxDay + 1
      invariant Loop(t, evs, i, minHeap, day, ret) && events[..] == evs
    {
      while i < events.Length && events[i].start <= day
        invariant 0 <= i <= |evs|
        invariant Loop(t, evs, i, minHeap, day, ret) && events[..] == evs
      {
        assert events[i] == evs[i];
        t := Enters(t, evs, i, minHeap, day, ret);
        minHeap := minHeap + multiset{events[i].end};
        i := i + 1;
      }
      assert i < events.Length ==> events[i] == evs[i];
      assert forall e :: e in evs[i..] ==> day < e.start;
      while |minHeap| > 0 && Least(minHeap) < day
        invariant Loop(t, evs, i, minHeap, day, ret) && events[..] == evs
        decreases |minHeap|
      {
        var top := Least(minHeap);
        t := Expires(t, evs, i, minHeap, day, ret, top);
        minHeap := minHeap - multiset{top};
      }
      if |minHeap| > 0 {
        var top := Least(minHeap);
        t := Attends(t, evs, i, minHeap, day, ret, top);
        minHeap := minHeap - multiset{top};
        ret := ret + 1;
      } else {
        assert minHeap == multiset{};
        Rests(t, evs, i, day, ret);
      }
      day := day + 1;
    }
    LoopEnds(t, evs, i, minHeap, day, ret);
  }
}
