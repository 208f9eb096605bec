/** The least number of rooms for a set of meetings, from a heap of the times rooms become free. */
module MeetingRooms {
  import opened Containers

  datatype Meeting = Meeting(start: int, end: int)

  datatype Booking = Booking(meeting: Meeting, room: nat)

  predicate Apart(a: Meeting, b: Meeting) { a.end <= b.start || b.end <= a.start }

  ghost function MeetingsOf(plan: seq<Booking>): (s: seq<Meeting>)
    ensures |s| == |plan|
  {
    seq(|plan|, i requires 0 <= i < |plan| => plan[i].meeting)
  }

  ghost predicate NoDoubleBooking(plan: seq<Booking>) {
    forall i, j :: 0 <= i < j < |plan| && plan[i].room == plan[j].room ==> Apart(plan[i].meeting, plan[j].meeting)
  }

  /** A plan for exactly these meetings in rooms below `rooms`, none double-booked. */
  ghost predicate Houses(plan: seq<Booking>, meetings: multiset<Meeting>, rooms: int) {
    && multiset(MeetingsOf(plan)) == meetings
    && (forall b :: b in plan ==> b.room < rooms)
    && NoDoubleBooking(plan)
  }

  ghost predicate IsMinimum(meetings: multiset<Meeting>, rooms: int) {
    && (exists plan :: Houses(plan, meetings, rooms))
    && (forall plan, fewer :: Houses(plan, meetings, fewer) ==> rooms <= fewer)
  }

  // ----- counting meetings -----

  type Kind = Meeting -> bool

  function On(t: int): Kind { (m: Meeting) => m.start <= t < m.end }
  function Within(t: int): Kind { (m: Meeting) => m.start < t < m.end }
  function EndsAfter(t: int): Kind { (m: Meeting) => t < m.end }

  ghost function Tally(s: seq<Meeting>, p: Kind): nat {
    if s == [] then 0 else Tally(s[..|s| - 1], p) + if p(s[|s| - 1]) then 1 else 0
  }

  /** How many of the meetings are on at `t`. */
  ghost function Overlap(s: seq<Meeting>, t: int): nat { Tally(s, On(t)) }

  ghost predicate PointAt(s: seq<Meeting>, t: int) { Meeting(t, t) in s }

  /**
   Rooms needed at `t`: one for each meeting on, or one for each around `t` and one for meetings of no
   length at `t`.
   */
  ghost function Demand(s: seq<Meeting>, t: int): nat {
    var inside := Tally(s, Within(t)) + if PointAt(s, t) then 1 else 0;
    if inside > Overlap(s, t) then inside else Overlap(s, t)
  }

  lemma {:induction false} TallyConcat(a: seq<Meeting>, b: seq<Meeting>, p: Kind)
    ensures Tally(a + b, p) == Tally(a, p) + Tally(b, p)
    decreases |b|
  {
    if b == [] {
      assert a + b == a;
    } else {
      assert (a + b)[..|a + b| - 1] == a + b[..|b| - 1];
      TallyConcat(a, b[..|b| - 1], p);
    }
  }

  lemma TallyOne(m: Meeting, p: Kind)
    ensures Tally([m], p) == if p(m) then 1 else 0
  {
    assert [m][..0] == [];
  }

  lemma {:induction false} TallyPermuted(a: seq<Meeting>, b: seq<Meeting>, p: Kind)
    requires multiset(a) == multiset(b)
    ensures Tally(a, p) == Tally(b, p)
    decreases |a|
  {
    if a == [] {
      assert |multiset(a)| == |a| && |multiset(b)| == |b|;
    } else {
      var x := a[|a| - 1];
      assert x in multiset(b);
      var j :| 0 <= j < |b| && b[j] == x;
      var rest := b[..j] + b[j + 1..];
      assert a == a[..|a| - 1] + [x] && b == b[..j] + [x] + b[j + 1..];
      assert multiset(a) == multiset(a[..|a| - 1]) + multiset{x} && multiset(b) == multiset(rest) + multiset{x};
      CancelMultiset(multiset(a[..|a| - 1]), multiset(rest), multiset{x});
      TallyPermuted(a[..|a| - 1], rest, p);
      TallyConcat(b[..j], b[j + 1..], p);
      TallyConcat(b[..j] + [x], b[j + 1..], p);
      TallyConcat(b[..j], [x], p);
      TallyOne(x, p);
    }
  }

  lemma {:induction false} TallyLess(s: seq<Meeting>, p: Kind, q: Kind)
    requires forall m :: m in s && p(m) ==> q(m)
    ensures Tally(s, p) <= Tally(s, q)
  {
    if s != [] { TallyLess(s[..|s| - 1], p, q); }
  }

  lemma DemandPermuted(a: seq<Meeting>, b: seq<Meeting>, t: int)
    requires multiset(a) == multiset(b)
    ensures Demand(a, t) == Demand(b, t) && Overlap(a, t) == Overlap(b, t)
  {
    TallyPermuted(a, b, On(t));
    TallyPermuted(a, b, Within(t));
    assert Meeting(t, t) in multiset(a) <==> Meeting(t, t) in multiset(b);
  }

  /** Positions of the meetings of a kind. */
  ghost function Places(s: seq<Meeting>, p: Kind): set<nat> { set i: nat | i < |s| && p(s[i]) }

  lemma {:induction false} PlacesCount(s: seq<Meeting>, p: Kind)
    ensures |Places(s, p)| == Tally(s, p)
    decreases |s|
  {
    if s == [] {
      assert Places(s, p) == {};
    } else {
      var n := |s| - 1;
      PlacesCount(s[..n], p);
      assert Places(s, p) == Places(s[..n], p) + if p(s[n]) then {n} else {};
    }
  }

  // ----- no plan does with fewer rooms than are needed at one instant -----

  ghost function RoomsOf(plan: seq<Booking>, p: Kind): set<nat> {
    set b | b in plan && p(b.meeting) :: b.room
  }

  lemma BoundedSet(s: set<nat>, n: nat)
    requires forall x :: x in s ==> x < n
    ensures |s| <= n
    decreases n
  {
    if n > 0 {
      BoundedSet(s - {n - 1}, n - 1);
      if n - 1 in s { assert |s| == |s - {n - 1}| + 1; } else { assert s - {n - 1} == s; }
    } else {
      assert s == {};
    }
  }

  /** No two meetings of this kind fit into one room. */
  ghost predicate Clashing(p: Kind) {
    forall a, b :: p(a) && p(b) ==> !Apart(a, b)
  }

  lemma RoomsOfMore(rest: seq<Booking>, last: Booking, p: Kind)
    ensures RoomsOf(rest + [last], p) == RoomsOf(rest, p) + if p(last.meeting) then {last.room} else {}
  {
  }

  lemma LastRoomIsNew(rest: seq<Booking>, last: Booking, p: Kind)
    requires NoDoubleBooking(rest + [last]) && Clashing(p) && p(last.meeting)
    ensures last.room !in RoomsOf(rest, p)
  {
    forall b | b in rest && p(b.meeting) ensures b.room != last.room {
      var i :| 0 <= i < |rest| && rest[i] == b;
      assert (rest + [last])[i] == b && (rest + [last])[|rest|] == last;
    }
  }

  lemma {:induction false} OwnRooms(plan: seq<Booking>, p: Kind)
    requires NoDoubleBooking(plan) && Clashing(p)
    ensures |RoomsOf(plan, p)| == Tally(MeetingsOf(plan), p)
    decreases |plan|
  {
    if plan == [] {
      assert RoomsOf(plan, p) == {};
    } else {
      var n := |plan| - 1;
      var rest, last := plan[..n], plan[n];
      assert plan == rest + [last];
      OwnRooms(rest, p);
      assert MeetingsOf(plan)[..n] == MeetingsOf(rest);
      RoomsOfMore(rest, last, p);
      if p(last.meeting) {
        LastRoomIsNew(rest, last, p);
      }
    }
  }

  /** A meeting of no length shares no room with a meeting around it. */
  lemma PointRoom(plan: seq<Booking>, t: int, k: nat)
    requires NoDoubleBooking(plan) && k < |plan| && plan[k].meeting == Meeting(t, t)
    ensures plan[k].room !in RoomsOf(plan, Within(t))
  {
    forall b | b in plan && Within(t)(b.meeting) ensures b.room != plan[k].room {
      var i :| 0 <= i < |plan| && plan[i] == b;
      assert !Apart(plan[i].meeting, plan[k].meeting) && !Apart(plan[k].meeting, plan[i].meeting);
    }
  }

  /** Meetings at one instant all need rooms of their own. */
  lemma DemandBounds(plan: seq<Booking>, s: seq<Meeting>, rooms: int, t: int)
    requires Houses(plan, multiset(s), rooms) && s != []
    ensures Demand(s, t) <= rooms
  {
    assert |multiset(MeetingsOf(plan))| == |plan| && |multiset(s)| == |s|;
    assert plan[0] in plan;
    OwnRooms(plan, On(t));
    OwnRooms(plan, Within(t));
    DemandPermuted(MeetingsOf(plan), s, t);
    TallyPermuted(MeetingsOf(plan), s, Within(t));
    BoundedSet(RoomsOf(plan, On(t)), rooms);
    BoundedSet(RoomsOf(plan, Within(t)), rooms);
    if PointAt(s, t) {
      assert Meeting(t, t) in multiset(s) && Meeting(t, t) in multiset(MeetingsOf(plan));
      var k :| 0 <= k < |plan| && MeetingsOf(plan)[k] == Meeting(t, t);
      PointRoom(plan, t, k);
      assert plan[k] in plan;
      BoundedSet(RoomsOf(plan, Within(t)) + {plan[k].room}, rooms);
    }
  }

  /** Meetings that only touch can share a room; those that overlap, in the next lemma, cannot. */
  lemma TouchingExample()
    ensures IsMinimum(multiset{Meeting(0, 5), Meeting(5, 10)}, 1)
  {
    var a, b := Meeting(0, 5), Meeting(5, 10);
    var plan := [Booking(a, 0), Booking(b, 0)];
    assert MeetingsOf(plan) == [a, b] && Houses(plan, multiset{a, b}, 1);
    forall other, fewer | Houses(other, multiset{a, b}, fewer) ensures 1 <= fewer {
      assert |multiset(MeetingsOf(other))| == 2;
      assert other[0] in other;
    }
  }

  lemma OverlappingExample()
    ensures IsMinimum(multiset{Meeting(0, 5), Meeting(4, 10)}, 2)
  {
    var a, c := Meeting(0, 5), Meeting(4, 10);
    var plan := [Booking(a, 0), Booking(c, 1)];
    assert MeetingsOf(plan) == [a, c] && Houses(plan, multiset{a, c}, 2);
    forall other, fewer | Houses(other, multiset{a, c}, fewer) ensures 2 <= fewer {
      assert multiset([a, c]) == multiset{a, c};
      DemandBounds(other, [a, c], fewer, 4);
      TallyConcat([a], [c], On(4));
      TallyOne(a, On(4));
      TallyOne(c, On(4));
      assert [a] + [c] == [a, c];
    }
  }

  // ----- what the loop builds -----

  ghost predicate ByStart(s: seq<Meeting>) {
    && (forall m :: m in s ==> m.start <= m.end)
    && (forall j, k :: 0 <= j < k < |s| ==> s[j].start <= s[k].start)
  }

  /** Earlier meetings of the order that last beyond the start of meeting `i`. */
  ghost function Still(s: seq<Meeting>, i: nat): nat
    requires i < |s|
  {
    Tally(s[..i], EndsAfter(s[i].start))
  }

  lemma {:induction false} DistinctElements(ids: seq<nat>) returns (s: set<nat>)
    requires forall i, j :: 0 <= i < j < |ids| ==> ids[i] != ids[j]
    ensures |s| == |ids| && forall x :: x in s <==> x in ids
    decreases |ids|
  {
    if ids == [] {
      s := {};
    } else {
      var n := |ids| - 1;
      s := DistinctElements(ids[..n]);
      assert ids[n] !in ids[..n];
      s := s + {ids[n]};
      assert ids == ids[..n] + [ids[n]];
    }
  }

  ghost function EndsOf(s: seq<Meeting>, latest: seq<nat>): (ends: seq<int>)
    requires forall r :: 0 <= r < |latest| ==> latest[r] < |s|
    ensures |ends| == |latest|
  {
    seq(|latest|, r requires 0 <= r < |latest| => s[latest[r]].end)
  }

  /**
   Rooms given to the first meetings of `s`; `latest` is each room's last meeting, `peak` the meeting the
   last room was opened for.
   */
  datatype Rooms = Rooms(rooms: seq<nat>, latest: seq<nat>, peak: nat)

  /** Each room's last meeting is its own, ends last in it, and meetings of one room follow each other. */
  ghost predicate RoomsKept(s: seq<Meeting>, rooms: seq<nat>, latest: seq<nat>) {
    && |rooms| <= |s|
    && (forall r :: 0 <= r < |latest| ==> latest[r] < |rooms| && rooms[latest[r]] == r)
    && (forall k :: 0 <= k < |rooms| ==> rooms[k] < |latest| && s[k].end <= s[latest[rooms[k]]].end)
    && (forall j, k :: 0 <= j < k < |rooms| && rooms[j] == rooms[k] ==> s[j].end <= s[k].start)
  }

  ghost predicate Assigned(s: seq<Meeting>, g: Rooms, heap: multiset<int>) {
    && RoomsKept(s, g.rooms, g.latest)
    && heap == multiset(EndsOf(s, g.latest))
    && g.peak < |s| && |g.latest| <= Still(s, g.peak) + 1
  }

  /** The next meeting goes to room `r`, which is new or free by its start. */
  lemma KeepRooms(s: seq<Meeting>, rooms: seq<nat>, latest: seq<nat>, r: nat)
    requires RoomsKept(s, rooms, latest) && |rooms| < |s| && r <= |latest|
    requires s[|rooms|].start <= s[|rooms|].end
    requires r < |latest| ==> s[latest[r]].end <= s[|rooms|].start
    ensures RoomsKept(s, rooms + [r], if r < |latest| then latest[r := |rooms|] else latest + [|rooms|])
  {
  }

  /** When every room is still busy, as many earlier meetings as rooms last beyond the next start. */
  lemma AllBusy(s: seq<Meeting>, latest: seq<nat>, i: nat)
    requires i < |s| && forall r :: 0 <= r < |latest| ==> latest[r] < i && s[i].start < s[latest[r]].end
    requires forall q, r :: 0 <= q < r < |latest| ==> latest[q] != latest[r]
    ensures |latest| <= Still(s, i)
  {
    var ids := DistinctElements(latest);
    var places := Places(s[..i], EndsAfter(s[i].start));
    forall x | x in ids ensures x in places {
      var r :| 0 <= r < |latest| && latest[r] == x;
    }
    PlacesCount(s[..i], EndsAfter(s[i].start));
    assert places == ids + (places - ids);
  }

  lemma BusyRooms(s: seq<Meeting>, rooms: seq<nat>, latest: seq<nat>, i: nat)
    requires RoomsKept(s, rooms, latest) && |rooms| == i < |s|
    requires forall x :: x in multiset(EndsOf(s, latest)) ==> s[i].start < x
    ensures |latest| <= Still(s, i)
  {
    hide Tally, Still;
    forall r | 0 <= r < |latest| ensures s[i].start < s[latest[r]].end {
      assert EndsOf(s, latest)[r] in multiset(EndsOf(s, latest));
    }
    forall q, r | 0 <= q < r < |latest| ensures latest[q] != latest[r] {
      assert rooms[latest[q]] == q && rooms[latest[r]] == r;
    }
    AllBusy(s, latest, i);
  }

  lemma LatestInRange(s: seq<Meeting>, rooms: seq<nat>, latest: seq<nat>)
    requires RoomsKept(s, rooms, latest)
    ensures forall r :: 0 <= r < |latest| ==> latest[r] < |rooms| <= |s|
  {
  }

  lemma InOrder(s: seq<Meeting>, i: nat)
    requires ByStart(s) && i < |s|
    ensures s[i].start <= s[i].end
  {
    assert s[i] in s;
  }

  lemma OpenRoom(s: seq<Meeting>, g: Rooms, heap: multiset<int>) returns (g': Rooms)
    requires Assigned(s, g, heap) && |g.rooms| < |s| && ByStart(s)
    requires forall x :: x in heap ==> s[|g.rooms|].start < x
    ensures Assigned(s, g', heap + multiset{s[|g.rooms|].end})
    ensures |g'.rooms| == |g.rooms| + 1
  {
    hide Still, RoomsKept, ByStart;
    var i := |g.rooms|;
    var latest' := g.latest + [i];
    LatestInRange(s, g.rooms, g.latest);
    g' := Rooms(g.rooms + [|g.latest|], latest', i);
    BusyRooms(s, g.rooms, g.latest, i);
    InOrder(s, i);
    KeepRooms(s, g.rooms, g.latest, |g.latest|);
    LatestInRange(s, g'.rooms, latest');
    assert EndsOf(s, latest') == EndsOf(s, g.latest) + [s[i].end];
  }

  lemma ReuseRoom(s: seq<Meeting>, g: Rooms, heap: multiset<int>, end: int) returns (g': Rooms)
    requires Assigned(s, g, heap) && |g.rooms| < |s| && ByStart(s)
    requires end in heap && end <= s[|g.rooms|].start
    ensures Assigned(s, g', heap - multiset{end} + multiset{s[|g.rooms|].end})
    ensures |g'.rooms| == |g.rooms| + 1
  {
    var i := |g.rooms|;
    var ends := EndsOf(s, g.latest);
    var r: nat :| r < |ends| && ends[r] == end;
    g' := Rooms(g.rooms + [r], g.latest[r := i], g.peak);
    assert s[i] in s;
    KeepRooms(s, g.rooms, g.latest, r);
    hide RoomsKept, Tally;
    assert EndsOf(s, g'.latest) == ends[r := s[i].end];
    ReplaceOne(ends, r, s[i].end);
  }

  lemma ReplaceOne(s: seq<int>, k: nat, x: int)
    requires k < |s|
    ensures multiset(s[k := x]) == multiset(s) - multiset{s[k]} + multiset{x}
  {
  }

  lemma FirstRoom(s: seq<Meeting>) returns (g: Rooms)
    requires s != [] && ByStart(s)
    ensures Assigned(s, g, multiset{s[0].end}) && |g.rooms| == 1
  {
    g := Rooms([0], [0], 0);
    assert EndsOf(s, g.latest) == [s[0].end];
  }

  lemma PlanOf(s: seq<Meeting>, rooms: seq<nat>, latest: seq<nat>) returns (plan: seq<Booking>)
    requires RoomsKept(s, rooms, latest) && |rooms| == |s|
    ensures Houses(plan, multiset(s), |latest|)
  {
    plan := seq(|s|, i requires 0 <= i < |s| => Booking(s[i], rooms[i]));
    assert MeetingsOf(plan) == s;
  }

  // ----- how many rooms the loop opens -----

  ghost function Image(ids: set<nat>, rooms: seq<nat>): set<nat>
    requires forall x :: x in ids ==> x < |rooms|
  {
    set x | x in ids :: rooms[x]
  }

  lemma {:induction false} DistinctRooms(ids: set<nat>, rooms: seq<nat>, n: nat)
    requires forall x :: x in ids ==> x < |rooms| && rooms[x] < n
    requires forall x, y :: x in ids && y in ids && x != y ==> rooms[x] != rooms[y]
    ensures |ids| == |Image(ids, rooms)| <= n
  {
    if ids != {} {
      var x :| x in ids;
      DistinctRooms(ids - {x}, rooms, n);
      assert Image(ids, rooms) == Image(ids - {x}, rooms) + {rooms[x]} && rooms[x] !in Image(ids - {x}, rooms);
    }
    BoundedSet(Image(ids, rooms), n);
  }

  lemma RoomsDiffer(s: seq<Meeting>, rooms: seq<nat>, latest: seq<nat>, i: nat, j: nat, k: nat)
    requires RoomsKept(s, rooms, latest) && |rooms| == |s| && ByStart(s) && j < k <= i < |s| && s[i].start < s[j].end
    ensures rooms[j] != rooms[k]
  {
    assert s[k].start <= s[i].start;
  }

  lemma Outlasting(s: seq<Meeting>, i: nat) returns (ids: set<nat>)
    requires i < |s|
    ensures |ids| == Still(s, i) + 1
    ensures forall x :: x in ids ==> x <= i && (x < i ==> s[i].start < s[x].end)
  {
    var places := Places(s[..i], EndsAfter(s[i].start));
    PlacesCount(s[..i], EndsAfter(s[i].start));
    ids := places + {i};
    assert i !in places && |ids| == |places| + 1;
  }

  /** All meetings counted by `Still`, and the one they outlast, are in different rooms. */
  lemma StillRooms(s: seq<Meeting>, rooms: seq<nat>, latest: seq<nat>, i: nat)
    requires RoomsKept(s, rooms, latest) && |rooms| == |s| && ByStart(s) && i < |s|
    ensures Still(s, i) + 1 <= |latest|
  {
    hide Still, ByStart, RoomsKept;
    var ids := Outlasting(s, i);
    forall x | x in ids ensures rooms[x] < |latest| {
      RoomExists(s, rooms, latest, x);
    }
    forall x, y | x in ids && y in ids && x != y ensures rooms[x] != rooms[y] {
      var j, k := if x < y then x else y, if x < y then y else x;
      RoomsDiffer(s, rooms, latest, i, j, k);
    }
    DistinctRooms(ids, rooms, |latest|);
  }

  lemma RoomExists(s: seq<Meeting>, rooms: seq<nat>, latest: seq<nat>, k: nat)
    requires RoomsKept(s, rooms, latest) && k < |rooms|
    ensures rooms[k] < |latest|
  {
  }

  /** The meetings a meeting of some length is outlasted by are on at its start, and so is it. */
  lemma StillOverlaps(s: seq<Meeting>, i: nat)
    requires ByStart(s) && i < |s| && s[i].start < s[i].end
    ensures Still(s, i) + 1 <= Overlap(s, s[i].start)
  {
    var t := s[i].start;
    forall m | m in s[..i] && EndsAfter(t)(m) ensures On(t)(m) {
      var j :| 0 <= j < i && s[j] == m;
    }
    TallyLess(s[..i], EndsAfter(t), On(t));
    SplitTally(s, i, On(t));
  }

  lemma SplitTally(s: seq<Meeting>, i: nat, p: Kind)
    requires i < |s|
    ensures Tally(s, p) == Tally(s[..i], p) + (if p(s[i]) then 1 else 0) + Tally(s[i + 1..], p)
  {
    assert s == s[..i] + [s[i]] + s[i + 1..];
    TallyConcat(s[..i] + [s[i]], s[i + 1..], p);
    TallyConcat(s[..i], [s[i]], p);
    TallyOne(s[i], p);
  }

  /** Around a meeting of no length: what outlasts it and began before it. */
  lemma StillWithin(s: seq<Meeting>, i: nat)
    requires ByStart(s) && i < |s| && s[i].start == s[i].end
    requires forall j :: 0 <= j < i && s[j].start == s[i].start ==> s[j].end == s[i].start
    ensures Still(s, i) + 1 <= Demand(s, s[i].start)
  {
    var t := s[i].start;
    forall m | m in s[..i] && EndsAfter(t)(m) ensures Within(t)(m) {
      var j :| 0 <= j < i && s[j] == m;
    }
    TallyLess(s[..i], EndsAfter(t), Within(t));
    SplitTally(s, i, Within(t));
    assert s[i] in s;
  }

  // ----- the true minimum -----

  const POINTS_FIRST: Meeting -> int := (m: Meeting) => 2 * m.start + if m.start == m.end then 0 else 1
  const POINTS_LAST: Meeting -> int := (m: Meeting) => 2 * m.start + if m.start == m.end then 1 else 0

  /** The loop itself, on meetings already in order. */
  lemma Schedule(s: seq<Meeting>) returns (g: Rooms)
    requires s != [] && ByStart(s)
    ensures RoomsKept(s, g.rooms, g.latest) && |g.rooms| == |s| && g.peak < |s| && |g.latest| <= Still(s, g.peak) + 1
  {
    hide RoomsKept, Tally, EndsOf;
    var heap := multiset{s[0].end};
    g := FirstRoom(s);
    for i := 1 to |s|
      invariant Assigned(s, g, heap) && |g.rooms| == i && |heap| > 0
    {
      var end := Least(heap);
      if s[i].start < end {
        g := OpenRoom(s, g, heap);
        heap := heap + multiset{s[i].end};
      } else {
        g := ReuseRoom(s, g, heap, end);
        heap := heap - multiset{end} + multiset{s[i].end};
      }
    }
  }

  /** With meetings of no length first among equal starts, the loop opens no more rooms than some instant needs. */
  lemma PointsFirstNeeds(s: seq<Meeting>, i: nat)
    requires ByStart(s) && SortedBy(s, POINTS_FIRST) && i < |s|
    ensures Still(s, i) + 1 <= Demand(s, s[i].start)
  {
    if s[i].start < s[i].end {
      StillOverlaps(s, i);
    } else {
      assert s[i] in s;
      forall j | 0 <= j < i && s[j].start == s[i].start ensures s[j].end == s[i].start {
        assert POINTS_FIRST(s[j]) <= POINTS_FIRST(s[i]);
      }
      StillWithin(s, i);
    }
  }

  lemma Reordered(s: seq<Meeting>, key: Meeting -> int) returns (s': seq<Meeting>)
    requires forall m :: m in s ==> m.start <= m.end
    requires forall a, b :: key(a) <= key(b) ==> a.start <= b.start
    ensures ByStart(s') && multiset(s') == multiset(s) && SortedBy(s', key)
  {
    s' := SortedCopy(s, key);
    SortedCopyFacts(s, key);
    forall m | m in s' ensures m.start <= m.end {
      assert m in multiset(s') && m in multiset(s);
    }
    forall j, k | 0 <= j < k < |s'| ensures s'[j].start <= s'[k].start {
      assert key(s'[j]) <= key(s'[k]);
    }
  }

  /** Some plan has no more rooms than some instant needs. */
  lemma BestPlan(s: seq<Meeting>) returns (plan: seq<Booking>, rooms: nat, t: int)
    requires s != [] && forall m :: m in s ==> m.start <= m.end
    ensures Houses(plan, multiset(s), rooms) && rooms <= Demand(s, t)
  {
    hide Houses, Demand, RoomsKept, Tally;
    var s' := Reordered(s, POINTS_FIRST);
    assert |multiset(s')| == |s'| && |multiset(s)| == |s|;
    var g := Schedule(s');
    plan := PlanOf(s', g.rooms, g.latest);
    rooms, t := |g.latest|, s'[g.peak].start;
    PointsFirstNeeds(s', g.peak);
    DemandPermuted(s', s, t);
  }

  // ----- when the loop opens a room too many -----

  /** A meeting of no length comes so late among those starting with it that more outlast it than any instant needs. */
  ghost predicate LateStart(s: seq<Meeting>) {
    exists i :: 0 <= i < |s| && s[i].start == s[i].end && forall t :: Demand(s, t) <= Still(s, i)
  }

  /** A complete assignment is a plan, and a least one exactly unless some start is late. */
  lemma AllAssigned(s: seq<Meeting>, g: Rooms, heap: multiset<int>)
    requires Assigned(s, g, heap) && |g.rooms| == |s| && s != [] && ByStart(s)
    ensures exists plan :: Houses(plan, multiset(s), |heap|)
    ensures IsMinimum(multiset(s), |heap|) <==> !LateStart(s)
    ensures |heap| <= Still(s, g.peak) + 1
  {
    assert |heap| == |EndsOf(s, g.latest)|;
    var plan := PlanOf(s, g.rooms, g.latest);
    var best, rooms, t := BestPlan(s);
    hide RoomsKept, EndsOf, Houses, Demand, Tally;
    if LateStart(s) {
      var i :| 0 <= i < |s| && s[i].start == s[i].end && forall u :: Demand(s, u) <= Still(s, i);
      StillRooms(s, g.rooms, g.latest, i);
      assert Demand(s, t) <= Still(s, i);
    } else {
      var u := NeededAtPeak(s, g.peak);
      forall other, fewer | Houses(other, multiset(s), fewer) ensures |heap| <= fewer {
        DemandBounds(other, s, fewer, u);
      }
    }
  }

  lemma NeededAtPeak(s: seq<Meeting>, i: nat) returns (t: int)
    requires ByStart(s) && i < |s| && !LateStart(s)
    ensures Still(s, i) + 1 <= Demand(s, t)
    ensures s[i].start < s[i].end ==> Still(s, i) + 1 <= Overlap(s, t)
  {
    assert s[i] in s;
    if s[i].start < s[i].end {
      t := s[i].start;
      StillOverlaps(s, i);
    } else {
      t :| Demand(s, t) > Still(s, i);
    }
  }

  /** Some meeting of no length starts with a longer one, at an instant when as many are on as any instant needs. */
  ghost predicate PeakTie(s: seq<Meeting>) {
    exists p, m :: p in s && m in s && p.start == p.end == m.start < m.end
        && forall t :: Demand(s, t) <= Overlap(s, m.start)
  }

  lemma StillOn(s: seq<Meeting>, i: nat)
    requires ByStart(s) && i < |s|
    ensures Still(s, i) <= Overlap(s, s[i].start)
  {
    var t := s[i].start;
    forall m | m in s[..i] && EndsAfter(t)(m) ensures On(t)(m) {
      var j :| 0 <= j < i && s[j] == m;
    }
    TallyLess(s[..i], EndsAfter(t), On(t));
    SplitTally(s, i, On(t));
  }

  lemma TieBefore(s: seq<Meeting>, i: nat) returns (j: nat)
    requires ByStart(s) && i < |s| && s[i].start == s[i].end && Demand(s, s[i].start) <= Still(s, i)
    ensures j < i && s[j].start == s[i].start < s[j].end
  {
    hide Tally, Demand;
    if j' :| 0 <= j' < i && s[j'].start == s[i].start && s[j'].end != s[i].start {
      j := j';
      assert s[j] in s;
    } else {
      StillWithin(s, i);
      assert false;
    }
  }

  /** Sorting can leave a late start exactly when there is such a tie: this lemma and the next. */
  lemma LateStartNeedsTie(s: seq<Meeting>)
    requires ByStart(s) && LateStart(s)
    ensures PeakTie(s)
  {
    hide Tally, Demand, ByStart;
    var i: nat :| 0 <= i < |s| && s[i].start == s[i].end && forall t :: Demand(s, t) <= Still(s, i);
    StillOn(s, i);
    assert Demand(s, s[i].start) <= Still(s, i);
    var j := TieBefore(s, i);
    assert s[i] in s && s[j] in s;
    forall u ensures Demand(s, u) <= Overlap(s, s[j].start) {
      assert Demand(s, u) <= Still(s, i);
    }
  }

  lemma TieMakesLateStart(s: seq<Meeting>) returns (s': seq<Meeting>)
    requires (forall m :: m in s ==> m.start <= m.end) && PeakTie(s)
    ensures ByStart(s') && multiset(s') == multiset(s) && LateStart(s')
  {
    var p, m :| p in s && m in s && p.start == p.end == m.start < m.end
        && forall t :: Demand(s, t) <= Overlap(s, m.start);
    s' := Reordered(s, POINTS_LAST);
    var t := m.start;
    assert p in multiset(s) && p in multiset(s');
    var i :| 0 <= i < |s'| && s'[i] == p;
    forall x | x in s'[i + 1..] ensures !On(t)(x) {
      var k :| i < k < |s'| && s'[k] == x;
      assert POINTS_LAST(s'[i]) <= POINTS_LAST(s'[k]);
    }
    TallyNone(s'[i + 1..], On(t));
    SplitTally(s', i, On(t));
    TallyLess(s'[..i], On(t), EndsAfter(t));
    forall u ensures Demand(s', u) <= Still(s', i) {
      DemandPermuted(s', s, u);
      DemandPermuted(s', s, t);
      assert Demand(s, u) <= Overlap(s, t);
    }
  }

  lemma {:induction false} TallyNone(s: seq<Meeting>, p: Kind)
    requires forall m :: m in s ==> !p(m)
    ensures Tally(s, p) == 0
  {
    if s != [] { TallyNone(s[..|s| - 1], p); }
  }

  /** The smallest case: one room would do for 5..7 and 5..5, but in this order the loop opens two. */
  lemma LateStartExample()
    ensures ByStart([Meeting(5, 7), Meeting(5, 5)]) && LateStart([Meeting(5, 7), Meeting(5, 5)])
  {
    var a, b := Meeting(5, 7), Meeting(5, 5);
    var s := [a, b];
    assert s[..1] == [a];
    TallyOne(a, EndsAfter(5));
    forall t ensures Demand(s, t) <= 1 {
      SplitTally(s, 1, On(t));
      SplitTally(s, 1, Within(t));
      TallyOne(a, On(t));
      TallyOne(a, Within(t));
      assert s[2..] == [];
    }
    assert Still(s, 1) == 1 && s[1].start == s[1].end;
  }

  const BY_START: Meeting -> int := (m: Meeting) => m.start

  lemma SortedStarts(s: seq<Meeting>, given: seq<Meeting>)
    requires SortedBy(s, BY_START) && multiset(s) == multiset(given) && forall m :: m in given ==> m.start <= m.end
    ensures ByStart(s)
  {
    forall m | m in s ensures m.start <= m.end {
      assert m in multiset(s) && m in multiset(given);
    }
    forall j, k | 0 <= j < k < |s| ensures s[j].start <= s[k].start {
      assert BY_START(s[j]) <= BY_START(s[k]);
    }
  }

  lemma TiePermuted(s: seq<Meeting>, given: seq<Meeting>)
    requires multiset(s) == multiset(given) && PeakTie(s)
    ensures PeakTie(given)
  {
    var p, m :| p in s && m in s && p.start == p.end == m.start < m.end
        && forall t :: Demand(s, t) <= Overlap(s, m.start);
    assert p in multiset(s) && m in multiset(s) && p in multiset(given) && m in multiset(given);
    forall t ensures Demand(given, t) <= Overlap(given, m.start) {
      DemandPermuted(s, given, t);
      DemandPermuted(s, given, m.start);
      assert Demand(s, t) <= Overlap(s, m.start);
    }
  }

  /** With meetings of some length only, the peak is an instant when as many are on as rooms were opened. */
  lemma PeakOverlap(s: seq<Meeting>, i: nat, rooms: int)
    requires ByStart(s) && i < |s| && s[i].start < s[i].end
    requires rooms <= Still(s, i) + 1 && exists plan :: Houses(plan, multiset(s), rooms)
    ensures Overlap(s, s[i].start) == rooms
  {
    var plan :| Houses(plan, multiset(s), rooms);
    StillOverlaps(s, i);
    DemandBounds(plan, s, rooms, s[i].start);
  }

  /**
   The heap size is always the number of rooms of some plan. It is the least number unless the
   sort left a late start, which it cannot without a tie at a peak; for meetings of some length
   it is the largest overlap.
   */
  method MinMeetingRooms(intervals: array<Meeting>) returns (rooms: int)
    requires intervals.Length > 0
    requires forall m :: m in intervals[..] ==> m.start <= m.end
    modifies intervals
    ensures multiset(intervals[..]) == multiset(old(intervals[..])) && ByStart(intervals[..])
    ensures exists plan :: Houses(plan, multiset(old(intervals[..])), rooms)
    ensures IsMinimum(multiset(old(intervals[..])), rooms) <==> !LateStart(intervals[..])
    ensures !PeakTie(old(intervals[..])) ==> IsMinimum(multiset(old(intervals[..])), rooms)
    ensures (forall m :: m in old(intervals[..]) ==> m.start < m.end) ==>
              IsMinimum(multiset(old(intervals[..])), rooms) && exists t :: Overlap(old(intervals[..]), t) == rooms
  {
    ghost var given := intervals[..];
    SortBy(intervals, BY_START);
    ghost var s := intervals[..];
    SortedStarts(s, given);
    hide Assigned, SortedBy, IsMinimum, Tally, ByStart, Demand, RoomsKept, Houses, LateStart, PeakTie;
    var heap := multiset{intervals[0].end};
    ghost var g := FirstRoom(s);
    for i := 1 to intervals.Length
      invariant intervals[..] == s && |heap| > 0
      invariant Assigned(s, g, heap) && |g.rooms| == i
    {
      assert intervals[i] == s[i];
      var endTime := Least(heap);
      ghost var before := heap;
      heap := heap - multiset{endTime};
      if intervals[i].start < endTime {
        heap := heap + multiset{endTime};
        assert heap == before;
        g := OpenRoom(s, g, before);
      } else {
        g := ReuseRoom(s, g, before, endTime);
      }
      heap := heap + multiset{intervals[i].end};
    }
    rooms := |heap|;
    Counted(s, given, g, heap);
  }

  lemma Counted(s: seq<Meeting>, given: seq<Meeting>, g: Rooms, heap: multiset<int>)
    requires Assigned(s, g, heap) && |g.rooms| == |s| && s != [] && ByStart(s) && multiset(s) == multiset(given)
    ensures exists plan :: Houses(plan, multiset(given), |heap|)
    ensures IsMinimum(multiset(given), |heap|) <==> !LateStart(s)
    ensures !PeakTie(given) ==> IsMinimum(multiset(given), |heap|)
    ensures (forall m :: m in given ==> m.start < m.end) ==>
              IsMinimum(multiset(given), |heap|) && exists t :: Overlap(given, t) == |heap|
  {
    AllAssigned(s, g, heap);
    hide IsMinimum, Houses, Tally, Demand, RoomsKept;
    if LateStart(s) {
      LateStartNeedsTie(s);
      TiePermuted(s, given);
    }
    if forall m :: m in given ==> m.start < m.end {
      assert s[g.peak] in multiset(s) && s[g.peak] in multiset(given);
      PeakOverlap(s, g.peak, |heap|);
      DemandPermuted(s, given, s[g.peak].start);
      hide PeakTie, LateStart;
      if PeakTie(given) { NoTieWithLength(given); }
    }
  }

  lemma NoTieWithLength(s: seq<Meeting>)
    requires PeakTie(s)
    ensures exists m :: m in s && m.start == m.end
  {
  }
}
