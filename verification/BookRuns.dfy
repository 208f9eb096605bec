/**
 What holds over whole runs of a book. A run is any sequence of submissions and
 cancellations, with other books drawing arrival numbers from the shared counter in between.
 */
module BookRuns {
  import opened Wrappers
  import opened ReferenceBook
  import OrderBook

  datatype Event = Submit(order: Order) | Withdraw(id: Id) | Elsewhere

  ghost function Step(book: Book, event: Event): (Book, seq<Trade>) {
    match event
    case Submit(order) => Add(book, order)
    case Withdraw(id) => (Cancel(book, id), [])
    case Elsewhere => (book.(clock := book.clock + 1), [])
  }

  ghost function After(start: nat, events: seq<Event>): Book {
    if events == [] then Book([], [], {}, start)
    else Step(After(start, events[..|events| - 1]), events[|events| - 1]).0
  }

  ghost function Tape(start: nat, events: seq<Event>): seq<seq<Trade>> {
    if events == [] then []
    else
      var n := |events| - 1;
      Tape(start, events[..n]) + [Step(After(start, events[..n]), events[n]).1]
  }

  ghost function NewOrders(book: Book, event: Event): nat {
    if event.Submit? && !Known(book, event.order.id) then 1 else 0
  }

  /** Submissions of the run that were not refused. */
  ghost function Accepted(start: nat, events: seq<Event>): nat {
    if events == [] then 0
    else
      var n := |events| - 1;
      Accepted(start, events[..n]) + NewOrders(After(start, events[..n]), events[n])
  }

  method Perform(book: OrderBook.Orderbook, event: Event) returns (trades: seq<Trade>, ghost rounds: nat)
    requires OrderBook.Valid(book.State())
    modifies book, book.currPriority
    ensures OrderBook.Valid(book.State())
    ensures (OrderBook.Eager(book.State()), trades) == Step(old(OrderBook.Eager(book.State())), event)
    ensures rounds + OrderBook.Entries(book.State()) <=
            old(OrderBook.Entries(book.State()) + NewOrders(OrderBook.Eager(book.State()), event))
  {
    hide OrderBook.Valid, OrderBook.Eager, Add, Cancel, Known;
    trades, rounds := [], 0;
    match event {
      case Submit(order) => trades, rounds := book.AddOrder(order);
      case Withdraw(id) => book.CancelOrder(id);
      case Elsewhere =>
        ghost var raw := book.State();
        OrderBook.LaterClock(raw);
        book.currPriority.value := book.currPriority.value + 1;
        assert book.State() == raw.(clock := raw.clock + 1);
    }
  }

  lemma NewBook(raw: OrderBook.Raw, start: nat)
    requires raw == OrderBook.Raw([], [], map[], start)
    ensures OrderBook.Eager(raw) == After(start, []) && OrderBook.Entries(raw) == 0
  {
  }

  lemma RawFacts(raw: OrderBook.Raw)
    requires OrderBook.Valid(raw)
    ensures OrderBook.Uncrossed(raw.bids, raw.asks) && OrderBook.NoEmptyLevel(raw.bids)
            && OrderBook.NoEmptyLevel(raw.asks)
    ensures IdsOf(OrderBook.Eager(raw).bids) <= OrderBook.QueuedIds(raw.bids)
    ensures IdsOf(OrderBook.Eager(raw).asks) <= OrderBook.QueuedIds(raw.asks)
    ensures OrderBook.Entries(raw) == |OrderBook.Flatten(raw.bids)| + |OrderBook.Flatten(raw.asks)|
  {
    OrderBook.LiveIds(raw.bids, raw.orders);
    OrderBook.LiveIds(raw.asks, raw.orders);
  }

  /**
   Every run of the lazy book returns exactly the reference book's trades, call by call. The
   rounds of all its matching loops, together with the entries still queued, are never more
   than the submissions it accepted.
   */
  method Replay(start: nat, events: seq<Event>)
    returns (tape: seq<seq<Trade>>, bids: seq<OrderBook.Level>, asks: seq<OrderBook.Level>, ghost rounds: nat)
    ensures tape == Tape(start, events)
    ensures OrderBook.Uncrossed(bids, asks) && OrderBook.NoEmptyLevel(bids) && OrderBook.NoEmptyLevel(asks)
    ensures IdsOf(After(start, events).bids) <= OrderBook.QueuedIds(bids)
    ensures IdsOf(After(start, events).asks) <= OrderBook.QueuedIds(asks)
    ensures rounds + |OrderBook.Flatten(bids)| + |OrderBook.Flatten(asks)| <= Accepted(start, events)
  {
    hide OrderBook.Valid, Step, OrderBook.Eager, OrderBook.Entries;
    var counter := new OrderBook.PriorityCounter(start);
    var book := new OrderBook.Orderbook(counter);
    tape, rounds := [], 0;
    assert OrderBook.Eager(book.State()) == After(start, []) && OrderBook.Entries(book.State()) == 0 by {
      NewBook(book.State(), start);
    }
    for i := 0 to |events|
      invariant fresh(book) && fresh(counter) && book.currPriority == counter
      invariant OrderBook.Valid(book.State())
      invariant OrderBook.Eager(book.State()) == After(start, events[..i])
      invariant tape == Tape(start, events[..i])
      invariant rounds + OrderBook.Entries(book.State()) <= Accepted(start, events[..i])
    {
      assert events[..i + 1][..i] == events[..i];
      var trades;
      ghost var more;
      trades, more := Perform(book, events[i]);
      tape, rounds := tape + [trades], rounds + more;
    }
    assert events[..|events|] == events;
    bids, asks := book.bids, book.asks;
    RawFacts(book.State());
  }

  lemma OneMoreCall(start: nat, events: seq<Event>, event: Event)
    ensures After(start, events + [event]) == Step(After(start, events), event).0
    ensures Tape(start, events + [event]) == Tape(start, events) + [Step(After(start, events), event).1]
  {
    assert (events + [event])[..|events|] == events;
  }

  /** Two sales at 100, then a purchase at 101: the older sale trades whole, the newer one in part, both at 100. */
  lemma MatchingExample()
    ensures var run := [Submit(Order(1, 100, false, 10))] + [Submit(Order(2, 100, false, 10))]
                       + [Submit(Order(3, 101, true, 15))];
      && Tape(0, run) == [[], [], [Trade(1, 3, 3, true, 100, 10), Trade(2, 3, 3, true, 100, 5)]]
      && After(0, run) == Book([], [Resting(Order(2, 100, false, 5), 1)], {}, 3)
  {
    var a, b, c := Order(1, 100, false, 10), Order(2, 100, false, 10), Order(3, 101, true, 15);
    var one, two := [Submit(a)], [Submit(a)] + [Submit(b)];
    OneMoreCall(0, [], Submit(a));
    OneMoreCall(0, one, Submit(b));
    OneMoreCall(0, two, Submit(c));
    assert [] + [Submit(a)] == one;
    TwoSales();
    Purchase();
    assert After(0, []) == Book([], [], {}, 0) && Tape(0, []) == [];
    hide After, Tape, Add;
    assert Tape(0, one) == [[]];
    assert Tape(0, two) == [[], []];
  }

  lemma TwoSales()
    ensures var a, b := Order(1, 100, false, 10), Order(2, 100, false, 10);
      && Add(Book([], [], {}, 0), a) == (Book([], [Resting(a, 0)], {}, 1), [])
      && Add(Book([], [Resting(a, 0)], {}, 1), b) == (Book([], [Resting(a, 0), Resting(b, 1)], {}, 2), [])
  {
    var x, y := Resting(Order(1, 100, false, 10), 0), Resting(Order(2, 100, false, 10), 1);
    assert [x][1..] == [] && [x] + [] == [x] && [y] + [] == [y];
    assert Insert([], x) == [x] && Insert([x], y) == [x, y];
    assert forall r :: r in [x] ==> r == x;
  }

  lemma Purchase()
    ensures var x, y := Resting(Order(1, 100, false, 10), 0), Resting(Order(2, 100, false, 10), 1);
      Add(Book([], [x, y], {}, 2), Order(3, 101, true, 15)) ==
      (Book([], [Resting(Order(2, 100, false, 5), 1)], {}, 3),
       [Trade(1, 3, 3, true, 100, 10), Trade(2, 3, 3, true, 100, 5)])
  {
    var x, y := Resting(Order(1, 100, false, 10), 0), Resting(Order(2, 100, false, 10), 1);
    var t, u := Trade(1, 3, 3, true, 100, 10), Trade(2, 3, 3, true, 100, 5);
    var rest := [Resting(Order(2, 100, false, 5), 1)];
    assert [x, y][1..] == [y] && [y][1..] == [];
    assert rest + [] == rest;
    assert Shrunk([y], 5) == rest;
    assert Execute(Order(3, 101, true, 5), [y]) == Outcome([u], None, rest);
    assert Execute(Order(3, 101, true, 15), [x, y]) == Outcome([t] + [u], None, rest);
    assert [t] + [u] == [t, u];
    assert forall r :: r in [x, y] ==> r == x || r == y;
  }

  // ----- the book after any run -----

  /** Better price first, then earlier arrival. */
  ghost predicate Ahead(isBuy: bool, a: Resting, b: Resting) {
    Rank(isBuy, a.order.level) < Rank(isBuy, b.order.level)
    || (a.order.level == b.order.level && a.priority < b.priority)
  }

  ghost predicate SideWellFormed(isBuy: bool, side: seq<Resting>, clock: nat) {
    && (forall r :: r in side ==> r.order.isBuy == isBuy && r.priority < clock)
    && (forall i, j :: 0 <= i < j < |side| ==> Ahead(isBuy, side[i], side[j]) && side[i].order.id != side[j].order.id)
  }

  ghost predicate WellFormed(book: Book) {
    && SideWellFormed(true, book.bids, book.clock) && SideWellFormed(false, book.asks, book.clock)
    && IdsOf(book.bids) !! IdsOf(book.asks) && IdsOf(book.bids) + IdsOf(book.asks) !! book.refused
    && (book.bids != [] && book.asks != [] ==> book.bids[0].order.level < book.asks[0].order.level)
  }

  function Volume(trades: seq<Trade>): int {
    if trades == [] then 0 else trades[0].size + Volume(trades[1..])
  }

  /** The trades of one call, without recursion: they take a prefix of the opposite side, in its order. */
  ghost predicate TakesPrefix(o: Order, side: seq<Resting>, e: Outcome) {
    var n := |e.trades|;
    && n <= |side|
    && (forall i :: 0 <= i < n ==>
        e.trades[i] == Execution(o, side[i].order, e.trades[i].size) && Crosses(o.isBuy, o.level, side[i].order.level))
    && (forall i :: 0 <= i < n - 1 ==> e.trades[i].size == side[i].order.quantity)
    && (e.rest.None? ==>
          && n > 0 && Volume(e.trades) == o.quantity
          && e.trades[n - 1].size <= side[n - 1].order.quantity
          && e.side == Shrunk(side[n - 1..], e.trades[n - 1].size))
    && (e.rest.Some? ==>
          && e.rest.value == o.(quantity := o.quantity - Volume(e.trades))
          && (n > 0 ==> e.trades[n - 1].size == side[n - 1].order.quantity)
          && e.side == side[n..]
          && (e.side != [] ==> !Crosses(o.isBuy, o.level, e.side[0].order.level)))
  }

  lemma PrefixCons(o: Order, side: seq<Resting>, e': Outcome)
    requires side != [] && Crosses(o.isBuy, o.level, side[0].order.level)
    requires TakesPrefix(o.(quantity := o.quantity - side[0].order.quantity), side[1..], e')
    ensures TakesPrefix(o, side,
                        Outcome([Execution(o, side[0].order, side[0].order.quantity)] + e'.trades, e'.rest, e'.side))
  {
  }

  /** A call that trades nothing, or only with the front order. */
  lemma PrefixEnds(o: Order, side: seq<Resting>)
    requires side == [] || !Crosses(o.isBuy, o.level, side[0].order.level) || o.quantity <= side[0].order.quantity
    ensures TakesPrefix(o, side, Execute(o, side))
  {
    assert side[0..] == side;
  }

  lemma {:induction false} ExecuteTakesPrefix(o: Order, side: seq<Resting>)
    ensures TakesPrefix(o, side, Execute(o, side))
    decreases |side|
  {
    hide TakesPrefix, Shrunk;
    if side == [] || !Crosses(o.isBuy, o.level, side[0].order.level) || o.quantity <= side[0].order.quantity {
      PrefixEnds(o, side);
    } else {
      var o' := o.(quantity := o.quantity - side[0].order.quantity);
      ExecuteTakesPrefix(o', side[1..]);
      PrefixCons(o, side, Execute(o', side[1..]));
    }
  }

  // ----- every run keeps the book well formed -----

  lemma {:induction false} InsertKeepsSide(side: seq<Resting>, r: Resting, clock: nat)
    requires SideWellFormed(r.order.isBuy, side, clock)
    requires r.priority == clock && r.order.id !in IdsOf(side)
    ensures SideWellFormed(r.order.isBuy, Insert(side, r), clock + 1)
    ensures forall x :: x in Insert(side, r) <==> x in side || x == r
  {
    if side == [] || Rank(r.order.isBuy, r.order.level) < Rank(r.order.isBuy, side[0].order.level) {
      var s := [r] + side;
      forall i, j | 0 <= i < j < |s| ensures Ahead(r.order.isBuy, s[i], s[j]) && s[i].order.id != s[j].order.id {
        assert s[j] == side[j - 1] && s[j].order.id in IdsOf(side);
        if i > 0 { assert s[i] == side[i - 1]; } else if j > 1 { assert Ahead(r.order.isBuy, side[0], side[j - 1]); }
      }
    } else {
      var rest := side[1..];
      assert forall i :: 0 <= i < |rest| ==> rest[i] == side[i + 1];
      assert IdsOf(rest) <= IdsOf(side);
      InsertKeepsSide(rest, r, clock);
      var s := Insert(rest, r);
      assert side[0].order.id in IdsOf(side);
      forall j | 0 <= j < |s| ensures Ahead(r.order.isBuy, side[0], s[j]) && side[0].order.id != s[j].order.id {
        if s[j] in rest {
          var k :| 0 <= k < |rest| && rest[k] == s[j];
          assert rest[k] == side[k + 1];
        }
      }
      assert forall x :: x in side <==> x == side[0] || x in rest;
    }
  }

  lemma {:induction false} RemoveMembers(side: seq<Resting>, id: Id)
    ensures forall x :: x in Remove(side, id) <==> x in side && x.order.id != id
  {
    if side != [] {
      RemoveMembers(side[1..], id);
      assert forall x :: x in side <==> x == side[0] || x in side[1..];
    }
  }

  lemma PrependKeepsSide(isBuy: bool, head: Resting, tail: seq<Resting>, clock: nat)
    requires SideWellFormed(isBuy, tail, clock) && head.order.isBuy == isBuy && head.priority < clock
    requires forall x :: x in tail ==> Ahead(isBuy, head, x) && head.order.id != x.order.id
    ensures SideWellFormed(isBuy, [head] + tail, clock)
  {
  }

  lemma {:induction false} RemoveKeepsSide(isBuy: bool, side: seq<Resting>, id: Id, clock: nat)
    requires SideWellFormed(isBuy, side, clock)
    ensures SideWellFormed(isBuy, Remove(side, id), clock)
    ensures forall x :: x in Remove(side, id) <==> x in side && x.order.id != id
  {
    RemoveMembers(side, id);
    if side != [] {
      var rest, s := side[1..], Remove(side[1..], id);
      RemoveMembers(rest, id);
      SuffixKeepsSide(isBuy, side, 1, clock);
      RemoveKeepsSide(isBuy, rest, id, clock);
      if side[0].order.id != id {
        forall x | x in s ensures Ahead(isBuy, side[0], x) && side[0].order.id != x.order.id {
          var k :| 0 <= k < |rest| && rest[k] == x;
          assert rest[k] == side[k + 1];
        }
        PrependKeepsSide(isBuy, side[0], s, clock);
      }
    }
  }

  /** What is left of a side after a call: still ordered, nothing new, its best price no better. */
  lemma ExecuteKeepsSide(o: Order, side: seq<Resting>, clock: nat)
    requires SideWellFormed(!o.isBuy, side, clock)
    ensures var e := Execute(o, side);
      && SideWellFormed(!o.isBuy, e.side, clock) && IdsOf(e.side) <= IdsOf(side)
      && (e.side != [] ==> side != [] && Rank(!o.isBuy, side[0].order.level) <= Rank(!o.isBuy, e.side[0].order.level))
  {
    ExecuteTakesPrefix(o, side);
    var e, n := Execute(o, side), |Execute(o, side).trades|;
    if e.rest.Some? {
      SuffixKeepsSide(!o.isBuy, side, n, clock);
    } else {
      SuffixKeepsSide(!o.isBuy, side, n - 1, clock);
      ShrunkKeepsSide(!o.isBuy, side[n - 1..], e.trades[n - 1].size, clock);
    }
  }

  lemma SuffixKeepsSide(isBuy: bool, side: seq<Resting>, n: nat, clock: nat)
    requires SideWellFormed(isBuy, side, clock) && n <= |side|
    ensures SideWellFormed(isBuy, side[n..], clock) && IdsOf(side[n..]) <= IdsOf(side)
    ensures n < |side| ==> Rank(isBuy, side[0].order.level) <= Rank(isBuy, side[n].order.level)
  {
  }

  lemma ShrunkKeepsSide(isBuy: bool, side: seq<Resting>, size: int, clock: nat)
    requires SideWellFormed(isBuy, side, clock) && side != []
    ensures var s := Shrunk(side, size);
      && SideWellFormed(isBuy, s, clock) && IdsOf(s) <= IdsOf(side)
      && (s != [] ==> Rank(isBuy, side[0].order.level) <= Rank(isBuy, s[0].order.level))
  {
  }

  lemma {:induction false} InsertHead(side: seq<Resting>, r: Resting)
    ensures Insert(side, r) != []
    ensures Insert(side, r)[0] == r || (side != [] && Insert(side, r)[0] == side[0])
  {
  }

  lemma {:induction false} IdsRemoved(side: seq<Resting>, id: Id)
    ensures IdsOf(Remove(side, id)) == IdsOf(side) - {id}
    ensures forall x :: x in Remove(side, id) <==> x in side && x.order.id != id
  {
    if side != [] {
      IdsRemoved(side[1..], id);
    }
  }

  lemma AddKeepsOwn(own: seq<Resting>, opp: seq<Resting>, o: Order, clock: nat)
    requires SideWellFormed(o.isBuy, own, clock) && o.id !in IdsOf(own)
    requires own != [] && opp != [] ==> !Crosses(o.isBuy, own[0].order.level, opp[0].order.level)
    requires SideWellFormed(!o.isBuy, opp, clock)
    ensures var e := Execute(o, opp);
      var own' := if e.rest.None? then own else Insert(own, Resting(e.rest.value, clock));
      && SideWellFormed(o.isBuy, own', clock + 1) && IdsOf(own') <= IdsOf(own) + {o.id}
      && (own' != [] && e.side != [] ==> !Crosses(o.isBuy, own'[0].order.level, e.side[0].order.level))
  {
    var e := Execute(o, opp);
    ExecuteTakesPrefix(o, opp);
    ExecuteKeepsSide(o, opp, clock);
    ClockUp(o.isBuy, own, clock);
    if e.rest.Some? {
      var r := Resting(e.rest.value, clock);
      InsertKeepsSide(own, r, clock);
      InsertHead(own, r);
    }
  }

  lemma AddKeepsWellFormed(book: Book, o: Order)
    requires WellFormed(book)
    ensures WellFormed(Add(book, o).0)
  {
    hide SideWellFormed, Execute, Insert;
    if !Known(book, o.id) {
      var own, opp := if o.isBuy then book.bids else book.asks, if o.isBuy then book.asks else book.bids;
      ExecuteKeepsSide(o, opp, book.clock);
      ClockUp(!o.isBuy, Execute(o, opp).side, book.clock);
      AddKeepsOwn(own, opp, o, book.clock);
    }
  }

  lemma ClockUp(isBuy: bool, side: seq<Resting>, clock: nat)
    requires SideWellFormed(isBuy, side, clock)
    ensures SideWellFormed(isBuy, side, clock + 1)
  {
  }

  lemma CancelKeepsWellFormed(book: Book, id: Id)
    requires WellFormed(book)
    ensures WellFormed(Cancel(book, id))
  {
    var bids, asks := Remove(book.bids, id), Remove(book.asks, id);
    IdsRemoved(book.bids, id);
    IdsRemoved(book.asks, id);
    RemoveKeepsSide(true, book.bids, id, book.clock);
    RemoveKeepsSide(false, book.asks, id, book.clock);
    RemoveHead(true, book.bids, id, book.clock);
    RemoveHead(false, book.asks, id, book.clock);
  }

  lemma RemoveHead(isBuy: bool, side: seq<Resting>, id: Id, clock: nat)
    requires SideWellFormed(isBuy, side, clock)
    ensures Remove(side, id) != [] ==>
            side != [] && Rank(isBuy, side[0].order.level) <= Rank(isBuy, Remove(side, id)[0].order.level)
  {
  }

  /** After every run the book is uncrossed, in priority order, with each id in one place only. */
  lemma {:induction false} RunsAreWellFormed(start: nat, events: seq<Event>)
    ensures WellFormed(After(start, events))
    decreases |events|
  {
    if events != [] {
      var n := |events| - 1;
      RunsAreWellFormed(start, events[..n]);
      var book := After(start, events[..n]);
      match events[n] {
        case Submit(o) => AddKeepsWellFormed(book, o);
        case Withdraw(id) => CancelKeepsWellFormed(book, id);
        case Elsewhere =>
          ClockUp(true, book.bids, book.clock);
          ClockUp(false, book.asks, book.clock);
      }
    }
  }

  ghost predicate IsOpen(book: Book, id: Id) { id in IdsOf(book.bids) || id in IdsOf(book.asks) }

  /** Some call of the run withdrew this id while its order was open. */
  ghost predicate WithdrawnWhileOpen(start: nat, events: seq<Event>, id: Id) {
    exists n :: 0 <= n < |events| && events[n] == Withdraw(id) && IsOpen(After(start, events[..n]), id)
  }

  lemma WithdrawnLast(start: nat, events: seq<Event>, id: Id)
    requires events != []
    ensures var n := |events| - 1;
      WithdrawnWhileOpen(start, events, id) <==>
      WithdrawnWhileOpen(start, events[..n], id) || (events[n] == Withdraw(id) && IsOpen(After(start, events[..n]), id))
  {
    hide After, IsOpen;
    var n := |events| - 1;
    assert forall k :: 0 <= k < n ==> events[..n][..k] == events[..k];
    if k :| 0 <= k < n && events[..n][k] == Withdraw(id) && IsOpen(After(start, events[..n][..k]), id) {
      assert events[k] == Withdraw(id);
    }
  }

  /** The refused ids are those that were withdrawn while open, and no others. */
  lemma {:induction false} RefusedExactlyWhen(start: nat, events: seq<Event>, id: Id)
    ensures id in After(start, events).refused <==> WithdrawnWhileOpen(start, events, id)
    decreases |events|
  {
    if events != [] {
      var n := |events| - 1;
      RefusedExactlyWhen(start, events[..n], id);
      WithdrawnLast(start, events, id);
      hide WithdrawnWhileOpen, Execute, Insert, Remove;
    }
  }

  /** A submission is turned away exactly when its id is open, or was once withdrawn while open. */
  lemma TurnedAwayExactlyWhen(start: nat, events: seq<Event>, o: Order)
    ensures Add(After(start, events), o) == (After(start, events), []) <==>
            IsOpen(After(start, events), o.id) || WithdrawnWhileOpen(start, events, o.id)
  {
    hide After, Execute, Insert, WithdrawnWhileOpen;
    RefusedExactlyWhen(start, events, o.id);
  }

  /** A cancelled id is never accepted again, whatever the run goes on with. */
  lemma RefusedForever(start: nat, events: seq<Event>, later: seq<Event>, o: Order)
    requires WithdrawnWhileOpen(start, events, o.id)
    ensures Add(After(start, events + later), o) == (After(start, events + later), [])
  {
    hide After, IsOpen;
    var n :| 0 <= n < |events| && events[n] == Withdraw(o.id) && IsOpen(After(start, events[..n]), o.id);
    assert (events + later)[n] == events[n] && (events + later)[..n] == events[..n];
    TurnedAwayExactlyWhen(start, events + later, o);
  }

  /** Submitted, cancelled, submitted again: the book is empty and the id is still refused. */
  lemma CancelledIdExample(start: nat, o: Order)
    ensures var book := After(start, [Submit(o), Withdraw(o.id)]);
      && book.bids == [] && book.asks == [] && Add(book, o) == (book, [])
  {
    var run := [Submit(o), Withdraw(o.id)];
    assert run[..1] == [Submit(o)] && [Submit(o)][..0] == [];
    var book := After(start, [Submit(o)]);
    assert After(start, []) == Book([], [], {}, start);
    var r := Resting(o, start);
    assert book == (if o.isBuy then Book([r], [], {}, start + 1) else Book([], [r], {}, start + 1));
    assert r in [r] && [r][1..] == [];
    assert After(start, run) == Cancel(book, o.id);
  }

  /** An id whose order was filled, incoming or resting, is free for a new order at once. */
  lemma FilledIdIsFree(start: nat, events: seq<Event>, o: Order, id: Id)
    requires var book := After(start, events);
      && !Known(book, o.id)
      && if id == o.id then Execute(o, Against(book, o)).rest.None?
         else id in IdsOf(Against(book, o)) - IdsOf(Execute(o, Against(book, o)).side)
    ensures !Known(Add(After(start, events), o).0, id)
  {
    hide Execute;
    var book := After(start, events);
    var e := Execute(o, Against(book, o));
    RunsAreWellFormed(start, events);
    ExecuteKeepsSide(o, Against(book, o), book.clock);
    ExecuteTakesPrefix(o, Against(book, o));
    if e.rest.Some? {
      InsertMembers(if o.isBuy then book.bids else book.asks, Resting(e.rest.value, book.clock));
    }
  }

  /** The side an order trades against. */
  function Against(book: Book, o: Order): seq<Resting> { if o.isBuy then book.asks else book.bids }

  /**
   The trades of any call in any run: the incoming order is the aggressor, each price is the
   resting order's own and inside both limits.
   */
  lemma TermsOfTrade(start: nat, events: seq<Event>, o: Order, k: nat)
    requires k < |Add(After(start, events), o).1|
    ensures var book := After(start, events);
      var t, side := Add(book, o).1[k], Against(book, o);
      && k < |side|
      && t.aggressorOrderId == t.orderIdB == o.id && t.aggressorIsBuy == o.isBuy
      && t.orderIdA == side[k].order.id && t.orderIdA != o.id
      && t.level == side[k].order.level && side[k].order.isBuy != o.isBuy
      && (if o.isBuy then t.level <= o.level else t.level >= o.level)
  {
    var book := After(start, events);
    RunsAreWellFormed(start, events);
    ExecuteTakesPrefix(o, Against(book, o));
    assert Against(book, o)[k] in Against(book, o);
  }

  lemma PrefixPriority(o: Order, side: seq<Resting>, e: Outcome, clock: nat, k: nat, waiting: Resting)
    requires SideWellFormed(!o.isBuy, side, clock) && TakesPrefix(o, side, e)
    requires k < |e.trades| && waiting in side
    ensures k > 0 ==> Ahead(!o.isBuy, side[k - 1], side[k])
    ensures Ahead(!o.isBuy, waiting, side[k]) ==>
              exists i :: 0 <= i < k && e.trades[i].orderIdA == waiting.order.id
                  && e.trades[i].size == waiting.order.quantity
  {
  }

  /**
   Price-time priority: trades go from better to worse and from older to newer, and every
   resting order that was ahead of a traded one has been filled before it in the same call.
   */
  lemma PriceTimePriority(start: nat, events: seq<Event>, o: Order, k: nat, waiting: Resting)
    requires k < |Add(After(start, events), o).1|
    requires waiting in Against(After(start, events), o)
    ensures var book := After(start, events);
      var trades, side := Add(book, o).1, Against(book, o);
      && k < |side|
      && (k > 0 ==> Ahead(!o.isBuy, side[k - 1], side[k]))
      && (Ahead(!o.isBuy, waiting, side[k]) ==>
            exists i :: 0 <= i < k && trades[i].orderIdA == waiting.order.id
                && trades[i].size == waiting.order.quantity)
  {
    hide SideWellFormed;
    var book := After(start, events);
    var side := Against(book, o);
    RunsAreWellFormed(start, events);
    ExecuteTakesPrefix(o, side);
    PrefixPriority(o, side, Execute(o, side), book.clock, k, waiting);
  }

  // ----- conservation -----

  /** Which orders a tally counts, by id and side. */
  type Tally = (Id, bool) -> bool

  function Counted(tally: Tally, o: Order): int { if tally(o.id, o.isBuy) then o.quantity else 0 }

  function Open(tally: Tally, side: seq<Resting>): int {
    if side == [] then 0 else Counted(tally, side[0].order) + Open(tally, side[1..])
  }

  function OpenOf(tally: Tally, side: seq<Resting>, id: Id): int {
    if side == [] then 0
    else (if side[0].order.id == id then Counted(tally, side[0].order) else 0) + OpenOf(tally, side[1..], id)
  }

  /** Each trade counts once for its buyer and once for its seller. */
  function Dealt(tally: Tally, trades: seq<Trade>): int {
    if trades == [] then 0
    else
      var t := trades[0];
      (if tally(t.Buyer(), true) then t.size else 0) + (if tally(t.Seller(), false) then t.size else 0) +
      Dealt(tally, trades[1..])
  }

  /** Totals of a run: quantity accepted, quantity traded, quantity open when cancelled. */
  ghost function Submitted(tally: Tally, start: nat, events: seq<Event>): int {
    if events == [] then 0
    else
      var n := |events| - 1;
      Submitted(tally, start, events[..n]) +
      if events[n].Submit? && !Known(After(start, events[..n]), events[n].order.id)
      then Counted(tally, events[n].order) else 0
  }

  ghost function Traded(tally: Tally, start: nat, events: seq<Event>): int {
    if events == [] then 0
    else
      var n := |events| - 1;
      Traded(tally, start, events[..n]) + Dealt(tally, Step(After(start, events[..n]), events[n]).1)
  }

  ghost function Withdrawn(tally: Tally, start: nat, events: seq<Event>): int {
    if events == [] then 0
    else
      var n := |events| - 1;
      var book := After(start, events[..n]);
      Withdrawn(tally, start, events[..n]) +
      if events[n].Withdraw? then OpenOf(tally, book.bids, events[n].id) + OpenOf(tally, book.asks, events[n].id) else 0
  }

  lemma {:induction false} ExecuteConserves(tally: Tally, o: Order, side: seq<Resting>)
    requires forall r :: r in side ==> r.order.isBuy != o.isBuy
    ensures var e := Execute(o, side);
      Counted(tally, o) + Open(tally, side) ==
      Dealt(tally, e.trades) + Open(tally, e.side) + if e.rest.Some? then Counted(tally, e.rest.value) else 0
    decreases |side|
  {
    if side != [] && Crosses(o.isBuy, o.level, side[0].order.level) {
      var best := side[0].order;
      assert side[0] in side;
      var size := Min(o.quantity, best.quantity);
      var e := Execute(o, side);
      if o.quantity == size {
        assert e.trades[1..] == [];
        if best.quantity != size { assert e.side[1..] == side[1..]; }
      } else {
        var o' := o.(quantity := o.quantity - size);
        ExecuteConserves(tally, o', side[1..]);
        assert e.trades[1..] == Execute(o', side[1..]).trades;
      }
    }
  }

  lemma {:induction false} InsertConserves(tally: Tally, side: seq<Resting>, r: Resting)
    ensures Open(tally, Insert(side, r)) == Open(tally, side) + Counted(tally, r.order)
  {
    if side == [] || Rank(r.order.isBuy, r.order.level) < Rank(r.order.isBuy, side[0].order.level) {
      assert ([r] + side)[1..] == side;
    } else {
      InsertConserves(tally, side[1..], r);
      assert Insert(side, r)[1..] == Insert(side[1..], r);
    }
  }

  lemma {:induction false} RemoveConserves(tally: Tally, side: seq<Resting>, id: Id)
    ensures Open(tally, Remove(side, id)) + OpenOf(tally, side, id) == Open(tally, side)
    ensures id !in IdsOf(side) ==> OpenOf(tally, side, id) == 0
  {
    if side != [] {
      RemoveConserves(tally, side[1..], id);
      if side[0].order.id != id {
        assert Remove(side, id)[1..] == Remove(side[1..], id);
      }
    }
  }

  /** In every run, what was accepted has been traded, is still open, or was withdrawn; for any tally. */
  lemma {:induction false} Conservation(tally: Tally, start: nat, events: seq<Event>)
    ensures var book := After(start, events);
      Submitted(tally, start, events) ==
      Traded(tally, start, events) + Open(tally, book.bids) + Open(tally, book.asks) + Withdrawn(tally, start, events)
    decreases |events|
  {
    if events != [] {
      var n := |events| - 1;
      Conservation(tally, start, events[..n]);
      var book := After(start, events[..n]);
      match events[n] {
        case Submit(o) =>
          RunsAreWellFormed(start, events[..n]);
          if !Known(book, o.id) {
            ExecuteConserves(tally, o, Against(book, o));
            var e := Execute(o, Against(book, o));
            if e.rest.Some? {
              InsertConserves(tally, if o.isBuy then book.bids else book.asks, Resting(e.rest.value, book.clock));
            }
          }
        case Withdraw(id) =>
          RemoveConserves(tally, book.bids, id);
          RemoveConserves(tally, book.asks, id);
        case Elsewhere =>
      }
    }
  }

  const BUYS: Tally := (id: Id, isBuy: bool) => isBuy
  const SELLS: Tally := (id: Id, isBuy: bool) => !isBuy

  lemma {:induction false} DealtBothSides(trades: seq<Trade>)
    ensures Dealt(BUYS, trades) == Volume(trades) == Dealt(SELLS, trades)
  {
    if trades != [] {
      DealtBothSides(trades[1..]);
    }
  }

  /** Over every run the buyers' fills and the sellers' fills add up to the same quantity. */
  lemma {:induction false} BoughtEqualsSold(start: nat, events: seq<Event>)
    ensures Traded(BUYS, start, events) == Traded(SELLS, start, events)
    decreases |events|
  {
    if events != [] {
      BoughtEqualsSold(start, events[..|events| - 1]);
      DealtBothSides(Step(After(start, events[..|events| - 1]), events[|events| - 1]).1);
    }
  }

  // ----- quantities -----

  ghost predicate AllPositive(book: Book) {
    forall r :: r in book.bids + book.asks ==> r.order.quantity > 0
  }

  /** With positive submissions every open quantity and every trade is positive. */
  lemma {:induction false} PositiveQuantities(start: nat, events: seq<Event>)
    requires forall e :: e in events && e.Submit? ==> e.order.quantity > 0
    ensures AllPositive(After(start, events))
    ensures forall trades, t :: trades in Tape(start, events) && t in trades ==> t.size > 0
    decreases |events|
  {
    if events != [] {
      var n := |events| - 1;
      PositiveQuantities(start, events[..n]);
      var book := After(start, events[..n]);
      match events[n] {
        case Submit(o) =>
          assert events[n] in events;
          ExecutePositive(o, Against(book, o));
          var e := Execute(o, Against(book, o));
          if e.rest.Some? {
            InsertMembers(if o.isBuy then book.bids else book.asks, Resting(e.rest.value, book.clock));
          }
        case Withdraw(id) =>
          IdsRemoved(book.bids, id);
          IdsRemoved(book.asks, id);
        case Elsewhere =>
      }
    }
  }

  lemma {:induction false} InsertMembers(side: seq<Resting>, r: Resting)
    ensures forall x :: x in Insert(side, r) <==> x in side || x == r
  {
    if side != [] {
      InsertMembers(side[1..], r);
    }
  }

  lemma {:induction false} ExecutePositive(o: Order, side: seq<Resting>)
    requires o.quantity > 0 && forall r :: r in side ==> r.order.quantity > 0
    ensures var e := Execute(o, side);
      && (forall t :: t in e.trades ==> t.size > 0)
      && (forall r :: r in e.side ==> r.order.quantity > 0)
      && (e.rest.Some? ==> e.rest.value.quantity > 0)
    decreases |side|
  {
    if side != [] && Crosses(o.isBuy, o.level, side[0].order.level) {
      assert side[0] in side;
      var size := Min(o.quantity, side[0].order.quantity);
      if o.quantity != size {
        ExecutePositive(o.(quantity := o.quantity - size), side[1..]);
      }
    }
  }
}
