/**
 The price-time-priority order book with lazy cancellation. Each side is the ordered
 map of price levels, held as the sequence of its levels with the best price first.
 A cancelled order stays in its queue until `Match` meets it.
 */
module OrderBook {
  import opened Wrappers
  import opened ReferenceBook

  datatype Level = Level(price: int, queue: seq<Order>)

  datatype Metadata = Metadata(level: int, priority: nat, canceled: bool)

  /** The value of a book object's fields. */
  datatype Raw = Raw(bids: seq<Level>, asks: seq<Level>, orders: map<Id, Metadata>, clock: nat)

  /** Appends to the queue of the order's level, creating the level at its place. */
  function Push(levels: seq<Level>, o: Order): seq<Level> {
    if levels == [] || Rank(o.isBuy, o.level) < Rank(o.isBuy, levels[0].price) then [Level(o.level, [o])] + levels
    else if levels[0].price == o.level then [levels[0].(queue := levels[0].queue + [o])] + levels[1..]
    else [levels[0]] + Push(levels[1..], o)
  }

  // ----- the two sides seen as flat queues -----

  function Flatten(levels: seq<Level>): seq<Order> {
    if levels == [] then [] else levels[0].queue + Flatten(levels[1..])
  }

  ghost function QueuedIds(levels: seq<Level>): set<Id> {
    set o | o in Flatten(levels) :: o.id
  }

  function LiveOf(queue: seq<Order>, orders: map<Id, Metadata>): seq<Resting> {
    if queue == [] then []
    else
      var o := queue[0];
      if o.id in orders && !orders[o.id].canceled then
        [Resting(o, orders[o.id].priority)] + LiveOf(queue[1..], orders)
      else LiveOf(queue[1..], orders)
  }

  function Live(levels: seq<Level>, orders: map<Id, Metadata>): seq<Resting> {
    LiveOf(Flatten(levels), orders)
  }

  ghost predicate NoEmptyLevel(levels: seq<Level>) {
    forall i :: 0 <= i < |levels| ==> levels[i].queue != []
  }

  /** Flat priority order: better price first, then earlier arrival. */
  ghost predicate Before(isBuy: bool, a: Order, b: Order, orders: map<Id, Metadata>) {
    && a.id in orders && b.id in orders
    && (Rank(isBuy, a.level) < Rank(isBuy, b.level)
        || (a.level == b.level && orders[a.id].priority < orders[b.id].priority))
  }

  /** Level prices strictly worsen and every queue holds orders of its own level and side. */
  ghost predicate Ladder(isBuy: bool, levels: seq<Level>) {
    levels == []
    || (&& (forall o :: o in levels[0].queue ==> o.level == levels[0].price && o.isBuy == isBuy)
        && (forall l :: l in levels[1..] ==> Rank(isBuy, levels[0].price) < Rank(isBuy, l.price))
        && (forall o :: o in Flatten(levels[1..]) ==> Rank(isBuy, levels[0].price) < Rank(isBuy, o.level))
        && Ladder(isBuy, levels[1..]))
  }

  ghost predicate Queue(isBuy: bool, f: seq<Order>, orders: map<Id, Metadata>, clock: nat) {
    && (forall o :: o in f ==> o.id in orders && orders[o.id].level == o.level && orders[o.id].priority < clock)
    && (forall a, b :: 0 <= a < b < |f| ==> Before(isBuy, f[a], f[b], orders))
  }

  ghost predicate SideValid(isBuy: bool, levels: seq<Level>, orders: map<Id, Metadata>, clock: nat) {
    Ladder(isBuy, levels) && Queue(isBuy, Flatten(levels), orders, clock)
  }

  /** Best bid below best ask, cancelled orders included. */
  ghost predicate Uncrossed(bids: seq<Level>, asks: seq<Level>) {
    bids != [] && asks != [] ==> bids[0].price < asks[0].price
  }

  ghost predicate Valid(raw: Raw) {
    && SideValid(true, raw.bids, raw.orders, raw.clock) && NoEmptyLevel(raw.bids)
    && SideValid(false, raw.asks, raw.orders, raw.clock) && NoEmptyLevel(raw.asks)
    && QueuedIds(raw.bids) !! QueuedIds(raw.asks)
    && (forall id :: id in raw.orders && !raw.orders[id].canceled ==> id in QueuedIds(raw.bids) + QueuedIds(raw.asks))
    && Uncrossed(raw.bids, raw.asks)
  }

  /** What the lazy book stands for. */
  ghost function Eager(raw: Raw): Book {
    Book(Live(raw.bids, raw.orders), Live(raw.asks, raw.orders),
         (set id | id in raw.orders && raw.orders[id].canceled), raw.clock)
  }

  // ----- queues -----

  lemma {:induction false} LiveConcat(a: seq<Order>, b: seq<Order>, orders: map<Id, Metadata>)
    ensures LiveOf(a + b, orders) == LiveOf(a, orders) + LiveOf(b, orders)
  {
    if a == [] {
      assert a + b == b;
    } else {
      assert (a + b)[1..] == a[1..] + b;
      LiveConcat(a[1..], b, orders);
    }
  }

  lemma {:induction false} LiveFrame(q: seq<Order>, m: map<Id, Metadata>, m': map<Id, Metadata>)
    requires forall o :: o in q ==> o.id in m && o.id in m' && m[o.id] == m'[o.id]
    ensures LiveOf(q, m) == LiveOf(q, m')
  {
    if q != [] {
      LiveFrame(q[1..], m, m');
    }
  }

  /** Every live entry is a queued order that is not cancelled, and each such order is there. */
  lemma {:induction false} LiveMembers(q: seq<Order>, m: map<Id, Metadata>)
    ensures forall r :: r in LiveOf(q, m) <==>
              r.order in q && r.order.id in m && !m[r.order.id].canceled && r.priority == m[r.order.id].priority
  {
    if q != [] {
      LiveMembers(q[1..], m);
    }
  }

  lemma FlattenCons(l: Level, rest: seq<Level>)
    ensures Flatten([l] + rest) == l.queue + Flatten(rest)
  {
  }

  /** `k` splits `f` into what is at the order's price or better and what is worse. */
  ghost predicate SplitsAt(f: seq<Order>, k: nat, o: Order) {
    && k <= |f|
    && (forall x :: x in f[..k] ==> Rank(o.isBuy, x.level) <= Rank(o.isBuy, o.level))
    && (forall x :: x in f[k..] ==> Rank(o.isBuy, o.level) < Rank(o.isBuy, x.level))
  }

  lemma SplitsBehind(q: seq<Order>, rest: seq<Order>, k: nat, o: Order)
    requires SplitsAt(rest, k, o)
    requires forall x :: x in q ==> Rank(o.isBuy, x.level) <= Rank(o.isBuy, o.level)
    ensures SplitsAt(q + rest, |q| + k, o)
    ensures (q + rest)[..|q| + k] == q + rest[..k] && (q + rest)[|q| + k..] == rest[k..]
  {
  }

  /** Where a pushed order lands in the flat queue: behind everything at its price or better. */
  lemma {:induction false} PushSplits(levels: seq<Level>, o: Order) returns (k: nat)
    requires Ladder(o.isBuy, levels)
    ensures SplitsAt(Flatten(levels), k, o)
    ensures Flatten(Push(levels, o)) == Flatten(levels)[..k] + [o] + Flatten(levels)[k..]
  {
    if levels == [] || Rank(o.isBuy, o.level) < Rank(o.isBuy, levels[0].price) {
      k := 0;
      FlattenCons(Level(o.level, [o]), levels);
    } else {
      var rest := Flatten(levels[1..]);
      var q := levels[0].queue;
      if levels[0].price == o.level {
        k := |q|;
        SplitsBehind(q, rest, 0, o);
        FlattenCons(Level(o.level, q + [o]), levels[1..]);
      } else {
        var k' := PushSplits(levels[1..], o);
        k := |q| + k';
        SplitsBehind(q, rest, k', o);
        FlattenCons(levels[0], Push(levels[1..], o));
      }
    }
  }

  lemma {:induction false} InsertSplits(a: seq<Resting>, b: seq<Resting>, r: Resting)
    requires forall x :: x in a ==> Rank(r.order.isBuy, x.order.level) <= Rank(r.order.isBuy, r.order.level)
    requires forall x :: x in b ==> Rank(r.order.isBuy, r.order.level) < Rank(r.order.isBuy, x.order.level)
    ensures Insert(a + b, r) == a + [r] + b
  {
    if a == [] {
      assert a + b == b;
      if b != [] { assert b[0] in b; }
    } else {
      assert a[0] in a;
      assert (a + b)[1..] == a[1..] + b;
      InsertSplits(a[1..], b, r);
    }
  }

  /** Pushing on the lazy side is inserting in the reference side. */
  lemma PushIsInsert(levels: seq<Level>, orders: map<Id, Metadata>, o: Order)
    requires Ladder(o.isBuy, levels)
    requires o.id in orders && !orders[o.id].canceled
    ensures Live(Push(levels, o), orders) == Insert(Live(levels, orders), Resting(o, orders[o.id].priority))
  {
    hide Ladder, Push, Flatten;
    var k := PushSplits(levels, o);
    var f := Flatten(levels);
    var r := Resting(o, orders[o.id].priority);
    var a, b := f[..k], f[k..];
    LiveConcat(a + [o], b, orders);
    LiveConcat(a, [o], orders);
    LiveConcat(a, b, orders);
    assert f == a + b;
    LiveMembers(a, orders);
    LiveMembers(b, orders);
    assert LiveOf([o], orders) == [r];
    InsertSplits(LiveOf(a, orders), LiveOf(b, orders), r);
  }

  lemma LadderCons(isBuy: bool, l: Level, rest: seq<Level>)
    requires forall o :: o in l.queue ==> o.level == l.price && o.isBuy == isBuy
    requires forall m :: m in rest ==> Rank(isBuy, l.price) < Rank(isBuy, m.price)
    requires forall o :: o in Flatten(rest) ==> Rank(isBuy, l.price) < Rank(isBuy, o.level)
    requires Ladder(isBuy, rest)
    ensures Ladder(isBuy, [l] + rest)
  {
  }

  ghost predicate AllWorse(isBuy: bool, price: int, levels: seq<Level>) {
    forall m :: m in levels ==> Rank(isBuy, price) < Rank(isBuy, m.price)
  }

  lemma {:induction false} PushAllWorse(levels: seq<Level>, o: Order, price: int)
    requires AllWorse(o.isBuy, price, levels) && Rank(o.isBuy, price) < Rank(o.isBuy, o.level)
    ensures AllWorse(o.isBuy, price, Push(levels, o))
  {
    if levels != [] && Rank(o.isBuy, levels[0].price) < Rank(o.isBuy, o.level) {
      PushAllWorse(levels[1..], o, price);
    }
  }

  lemma PushMembers(levels: seq<Level>, o: Order)
    requires Ladder(o.isBuy, levels)
    ensures forall x :: x in Flatten(Push(levels, o)) <==> x == o || x in Flatten(levels)
  {
  }

  lemma {:induction false} PushLadder(levels: seq<Level>, o: Order)
    requires Ladder(o.isBuy, levels)
    ensures Ladder(o.isBuy, Push(levels, o))
  {
    if levels == [] {
      LadderCons(o.isBuy, Level(o.level, [o]), []);
    } else {
      var rest := levels[1..];
      if Rank(o.isBuy, o.level) < Rank(o.isBuy, levels[0].price) {
        LadderCons(o.isBuy, Level(o.level, [o]), levels);
      } else if levels[0].price == o.level {
        LadderCons(o.isBuy, Level(o.level, levels[0].queue + [o]), rest);
      } else {
        PushLadder(rest, o);
        PushMembers(rest, o);
        PushAllWorse(rest, o, levels[0].price);
        LadderCons(o.isBuy, levels[0], Push(rest, o));
      }
    }
  }

  lemma {:induction false} PushNoEmptyLevel(levels: seq<Level>, o: Order)
    requires NoEmptyLevel(levels)
    ensures NoEmptyLevel(Push(levels, o))
  {
    if levels != [] {
      PushNoEmptyLevel(levels[1..], o);
    }
  }

  /** Inserting the newest order behind everything at its price or better keeps priority order. */
  lemma InsertKeepsQueue(isBuy: bool, a: seq<Order>, b: seq<Order>, o: Order, orders: map<Id, Metadata>, clock: nat)
    requires Queue(isBuy, a + b, orders, clock)
    requires o.id in orders && orders[o.id] == Metadata(o.level, clock, false)
    requires forall x :: x in a ==> Rank(isBuy, x.level) <= Rank(isBuy, o.level)
    requires forall x :: x in b ==> Rank(isBuy, o.level) < Rank(isBuy, x.level)
    ensures Queue(isBuy, a + [o] + b, orders, clock + 1)
  {
    var f, g := a + b, a + [o] + b;
    forall i, j | 0 <= i < j < |g|
      ensures Before(isBuy, g[i], g[j], orders)
    {
      if i == |a| {
        assert g[j] == f[j - 1] && g[j] in b;
      } else if j == |a| {
        assert g[i] == f[i] && g[i] in a;
      } else {
        assert g[i] == f[if i < |a| then i else i - 1] && g[j] == f[if j < |a| then j else j - 1];
      }
    }
    assert forall x :: x in g ==> x in f || x == o;
  }

  lemma PushKeepsValid(levels: seq<Level>, orders: map<Id, Metadata>, clock: nat, o: Order)
    requires SideValid(o.isBuy, levels, orders, clock) && NoEmptyLevel(levels)
    requires o.id in orders && orders[o.id] == Metadata(o.level, clock, false)
    ensures SideValid(o.isBuy, Push(levels, o), orders, clock + 1) && NoEmptyLevel(Push(levels, o))
    ensures QueuedIds(Push(levels, o)) == QueuedIds(levels) + {o.id}
  {
    hide Ladder, Queue, Push, Flatten, NoEmptyLevel;
    PushLadder(levels, o);
    PushMembers(levels, o);
    PushNoEmptyLevel(levels, o);
    var k := PushSplits(levels, o);
    var f := Flatten(levels);
    assert f == f[..k] + f[k..];
    InsertKeepsQueue(o.isBuy, f[..k], f[k..], o, orders, clock);
  }

  // ----- one call of the matching loop -----

  /** Where a call stands: what is left of the incoming order, and what it has done so far. */
  datatype Progress = Progress(cur: Order, gone: bool, opp: seq<Level>, orders: map<Id, Metadata>, trades: seq<Trade>)

  function Side(raw: Raw, isBuy: bool): seq<Level> { if isBuy then raw.bids else raw.asks }

  /** The reference result still to come, with the trades already made put in front. */
  ghost function Ahead(p: Progress): Outcome {
    if p.gone then Outcome(p.trades, None, Live(p.opp, p.orders))
    else
      var e := Execute(p.cur, Live(p.opp, p.orders));
      Outcome(p.trades + e.trades, e.rest, e.side)
  }

  ghost function Goal(pre: Raw, o: Order): Outcome {
    Execute(o, Live(Side(pre, !o.isBuy), pre.orders))
  }

  /** Who is known during a call, in terms of the ids queued on the two sides. */
  ghost predicate IdsKnown(pre: map<Id, Metadata>, o: Order, clock: nat, gone: bool, own: set<Id>, opp: set<Id>,
                           orders: map<Id, Metadata>) {
    && own !! opp && o.id !in own + opp && o.id !in pre
    && own <= orders.Keys
    && (forall id :: id in orders && id != o.id ==> id in pre && orders[id] == pre[id])
    && (forall id :: id in pre && pre[id].canceled ==> id in orders)
    && (forall id :: id in orders && !orders[id].canceled ==> id == o.id || id in own + opp)
    && (o.id in orders <==> !gone)
    && (!gone ==> orders[o.id] == Metadata(o.level, clock, false))
  }

  ghost predicate Matching(pre: Raw, o: Order, p: Progress) {
    var own := Side(pre, o.isBuy);
    && p.cur == o.(quantity := p.cur.quantity)
    && SideValid(!o.isBuy, p.opp, p.orders, pre.clock)
    && IdsKnown(pre.orders, o, pre.clock, p.gone, QueuedIds(own), QueuedIds(p.opp), p.orders)
    && (own != [] && p.opp != [] ==> !Crosses(o.isBuy, own[0].price, p.opp[0].price))
    && Ahead(p) == Goal(pre, o)
  }

  lemma QueueTail(isBuy: bool, f: seq<Order>, orders: map<Id, Metadata>, clock: nat)
    requires f != [] && Queue(isBuy, f, orders, clock)
    ensures Queue(isBuy, f[1..], orders, clock)
    ensures forall x :: x in f[1..] ==> x.id != f[0].id
  {
  }

  function PopFront(levels: seq<Level>): seq<Level>
    requires levels != [] && levels[0].queue != []
  {
    [levels[0].(queue := levels[0].queue[1..])] + levels[1..]
  }

  lemma HeadFirst<T>(q: seq<T>, rest: seq<T>)
    requires q != []
    ensures q + rest == [q[0]] + (q[1..] + rest) && (q + rest)[1..] == q[1..] + rest
  {
  }

  lemma PopFlatten(levels: seq<Level>)
    requires levels != [] && levels[0].queue != []
    ensures Flatten(levels) == [levels[0].queue[0]] + Flatten(PopFront(levels))
    ensures Flatten(levels)[1..] == Flatten(PopFront(levels))
  {
    hide Flatten;
    assert levels == [levels[0]] + levels[1..];
    FlattenCons(levels[0], levels[1..]);
    FlattenCons(levels[0].(queue := levels[0].queue[1..]), levels[1..]);
    HeadFirst(levels[0].queue, Flatten(levels[1..]));
  }

  lemma PopKeepsValid(levels: seq<Level>, isBuy: bool, orders: map<Id, Metadata>, clock: nat)
    requires SideValid(isBuy, levels, orders, clock) && levels != [] && levels[0].queue != []
    ensures SideValid(isBuy, PopFront(levels), orders, clock)
    ensures QueuedIds(levels) == QueuedIds(PopFront(levels)) + {levels[0].queue[0].id}
    ensures levels[0].queue[0].id !in QueuedIds(PopFront(levels))
  {
    var less := PopFront(levels);
    PopFlatten(levels);
    QueueTail(isBuy, Flatten(levels), orders, clock);
    assert less[1..] == levels[1..];
    assert Ladder(isBuy, less);
  }

  lemma DropCancelled(pre: Raw, o: Order, p: Progress, p': Progress)
    requires Matching(pre, o, p) && p.opp != [] && p.opp[0].queue != []
    requires p.orders[p.opp[0].queue[0].id].canceled
    requires p' == p.(opp := PopFront(p.opp))
    ensures Matching(pre, o, p')
    ensures |Flatten(p'.opp)| < |Flatten(p.opp)|
  {
    PopFlatten(p.opp);
    PopKeepsValid(p.opp, !o.isBuy, p.orders, pre.clock);
  }

  lemma DropLevel(pre: Raw, o: Order, p: Progress, p': Progress)
    requires Matching(pre, o, p) && p.opp != [] && p.opp[0].queue == []
    requires p' == p.(opp := p.opp[1..])
    ensures Matching(pre, o, p')
    ensures Flatten(p'.opp) == Flatten(p.opp)
  {
    assert Flatten(p'.opp) == Flatten(p.opp);
    if p'.opp != [] {
      assert p'.opp[0] in p.opp[1..];
    }
  }

  /** The resting order's remainder goes back to the front of its queue. */
  function Refront(levels: seq<Level>, rest: Order): seq<Level>
    requires levels != [] && levels[0].queue != []
  {
    [levels[0].(queue := [rest] + levels[0].queue[1..])] + levels[1..]
  }

  /** The front order after trading `size`: filled orders leave the queue. */
  function Reduced(levels: seq<Level>, size: int): seq<Level>
    requires levels != [] && levels[0].queue != []
  {
    var front := levels[0].queue[0];
    if front.quantity == size then PopFront(levels)
    else Refront(levels, front.(quantity := front.quantity - size))
  }

  /** One trade between the incoming order and the front of the best opposite level. */
  function Traded(p: Progress): Progress
    requires p.opp != [] && p.opp[0].queue != []
  {
    var best := p.opp[0].queue[0];
    var size := Min(p.cur.quantity, best.quantity);
    Progress(p.cur.(quantity := p.cur.quantity - size), p.cur.quantity == size,
             Reduced(p.opp, size),
             p.orders - (if p.cur.quantity == size then {p.cur.id} else {})
                      - (if best.quantity == size then {best.id} else {}),
             p.trades + [Execution(p.cur, best, size)])
  }

  lemma RefrontKeepsValid(levels: seq<Level>, rest: Order, isBuy: bool, orders: map<Id, Metadata>, clock: nat)
    requires SideValid(isBuy, levels, orders, clock) && levels != [] && levels[0].queue != []
    requires rest == levels[0].queue[0].(quantity := rest.quantity)
    ensures SideValid(isBuy, Refront(levels, rest), orders, clock)
    ensures Flatten(Refront(levels, rest)) == [rest] + Flatten(levels)[1..]
    ensures QueuedIds(Refront(levels, rest)) == QueuedIds(levels)
  {
    var more := Refront(levels, rest);
    var f, g := Flatten(levels), Flatten(more);
    PopFlatten(levels);
    assert more[1..] == levels[1..];
    PopFlatten(more);
    assert PopFront(more) == PopFront(levels);
    assert g == [rest] + f[1..];
    assert f == [f[0]] + f[1..];
    forall a, b | 0 <= a < b < |g| ensures Before(isBuy, g[a], g[b], orders) {
      assert Before(isBuy, f[a], f[b], orders);
    }
    assert Ladder(isBuy, more);
  }

  lemma SideFrame(levels: seq<Level>, isBuy: bool, m: map<Id, Metadata>, m': map<Id, Metadata>, clock: nat)
    requires SideValid(isBuy, levels, m, clock)
    requires forall id :: id in QueuedIds(levels) ==> id in m' && m'[id] == m[id]
    ensures SideValid(isBuy, levels, m', clock)
  {
  }

  /** What a trade does to the opposite side. */
  lemma TradeSide(pre: Raw, o: Order, p: Progress)
    requires Tradable(pre, o, p)
    ensures SideValid(!o.isBuy, Traded(p).opp, Traded(p).orders, pre.clock)
    ensures Traded(p).opp != [] && Traded(p).opp[0].price == p.opp[0].price && Traded(p).opp[1..] == p.opp[1..]
    ensures Traded(p).gone || |Flatten(Traded(p).opp)| < |Flatten(p.opp)|
    ensures |Flatten(Traded(p).opp)| <= |Flatten(p.opp)|
    ensures var best := p.opp[0].queue[0];
      && QueuedIds(p.opp) == QueuedIds(PopFront(p.opp)) + {best.id} && best.id !in QueuedIds(PopFront(p.opp))
      && QueuedIds(Traded(p).opp) ==
         if best.quantity <= p.cur.quantity then QueuedIds(PopFront(p.opp)) else QueuedIds(p.opp)
  {
    hide Before, Execution, Ladder;
    var p' := Traded(p);
    var best := p.opp[0].queue[0];
    PopFlatten(p.opp);
    PopKeepsValid(p.opp, !o.isBuy, p.orders, pre.clock);
    if best.quantity <= p.cur.quantity {
    } else {
      var rest := p'.opp[0].queue[0];
      RefrontKeepsValid(p.opp, rest, !o.isBuy, p.orders, pre.clock);
    }
    SideFrame(p'.opp, !o.isBuy, p.orders, p'.orders, pre.clock);
  }

  lemma RefrontFlatten(levels: seq<Level>, rest: Order)
    requires levels != [] && levels[0].queue != []
    ensures Flatten(Refront(levels, rest)) == [rest] + Flatten(PopFront(levels))
  {
  }

  /** The live side loses exactly what the trade took from its best order. */
  lemma TradeLive(p: Progress)
    requires p.opp != [] && p.opp[0].queue != []
    requires var best := p.opp[0].queue[0];
      && best.id in p.orders && !p.orders[best.id].canceled && best.id != p.cur.id
      && forall x :: x in Flatten(PopFront(p.opp)) ==> x.id in p.orders && x.id != best.id && x.id != p.cur.id
    ensures var best := p.opp[0].queue[0];
      var side := Live(p.opp, p.orders);
      && side != [] && side[0].order == best
      && Live(Traded(p).opp, Traded(p).orders) == Shrunk(side, Min(p.cur.quantity, best.quantity))
  {
    hide Execution, Flatten, PopFront;
    var p' := Traded(p);
    var best := p.opp[0].queue[0];
    var tail := Flatten(PopFront(p.opp));
    PopFlatten(p.opp);
    var side := Live(p.opp, p.orders);
    assert side == [Resting(best, p.orders[best.id].priority)] + LiveOf(tail, p.orders);
    LiveFrame(tail, p.orders, p'.orders);
    if p.cur.quantity < best.quantity {
      var rest := best.(quantity := best.quantity - p.cur.quantity);
      RefrontFlatten(p.opp, rest);
      assert (Flatten(p'.opp))[1..] == tail;
    }
  }

  /** A trade is one step of the reference execution. */
  lemma TradeAhead(p: Progress)
    requires !p.gone && p.opp != [] && p.opp[0].queue != []
    requires var best := p.opp[0].queue[0];
      && Crosses(p.cur.isBuy, p.cur.level, best.level)
      && var side := Live(p.opp, p.orders);
      && side != [] && side[0].order == best
      && Live(Traded(p).opp, Traded(p).orders) == Shrunk(side, Min(p.cur.quantity, best.quantity))
    ensures Ahead(Traded(p)) == Ahead(p)
  {
  }

  ghost predicate Tradable(pre: Raw, o: Order, p: Progress) {
    && Matching(pre, o, p) && p.opp != [] && p.opp[0].queue != []
    && p.opp[0].queue[0].id in p.orders && !p.orders[p.opp[0].queue[0].id].canceled
    && !p.gone && Crosses(o.isBuy, o.level, p.opp[0].price)
  }

  lemma TradableFronts(pre: Raw, o: Order, p: Progress)
    requires Tradable(pre, o, p)
    ensures var best := p.opp[0].queue[0];
      && best.id != p.cur.id && Crosses(p.cur.isBuy, p.cur.level, best.level)
      && forall x :: x in Flatten(PopFront(p.opp)) ==> x.id in p.orders && x.id != best.id && x.id != p.cur.id
  {
    PopFlatten(p.opp);
    PopKeepsValid(p.opp, !o.isBuy, p.orders, pre.clock);
    forall x | x in Flatten(PopFront(p.opp))
      ensures x.id in p.orders && x.id != p.opp[0].queue[0].id && x.id != p.cur.id
    {
      assert x in Flatten(p.opp);
      assert x.id in QueuedIds(PopFront(p.opp)) && x.id in QueuedIds(p.opp);
    }
    assert p.opp[0].queue[0] in Flatten(p.opp);
  }

  lemma OneTrade(pre: Raw, o: Order, p: Progress)
    requires Tradable(pre, o, p)
    ensures Matching(pre, o, Traded(p))
  {
    hide SideValid, Ahead, Goal, Execute, Flatten, Reduced, QueuedIds;
    TradeSide(pre, o, p);
    TradableFronts(pre, o, p);
    TradeLive(p);
    TradeAhead(p);
  }

  /** The value of the book just before its matching loop starts. */
  ghost function Pushed(pre: Raw, o: Order): Raw {
    Raw(if o.isBuy then Push(pre.bids, o) else pre.bids,
        if o.isBuy then pre.asks else Push(pre.asks, o),
        pre.orders[o.id := Metadata(o.level, pre.clock, false)], pre.clock + 1)
  }

  lemma QueuedAreKnown(levels: seq<Level>, isBuy: bool, orders: map<Id, Metadata>, clock: nat)
    requires SideValid(isBuy, levels, orders, clock)
    ensures QueuedIds(levels) <= orders.Keys
  {
  }

  lemma BeginAhead(pre: Raw, o: Order)
    requires QueuedIds(Side(pre, !o.isBuy)) <= pre.orders.Keys && o.id !in pre.orders
    ensures Ahead(Progress(o, false, Side(pre, !o.isBuy), Pushed(pre, o).orders, [])) == Goal(pre, o)
  {
    var opp := Side(pre, !o.isBuy);
    forall x | x in Flatten(opp) ensures x.id in QueuedIds(opp) {}
    LiveFrame(Flatten(opp), pre.orders, Pushed(pre, o).orders);
    var e := Goal(pre, o);
    assert [] + e.trades == e.trades;
  }

  lemma Begin(pre: Raw, o: Order)
    requires Valid(pre) && o.id !in pre.orders
    ensures Matching(pre, o, Progress(o, false, Side(pre, !o.isBuy), Pushed(pre, o).orders, []))
    ensures NoEmptyLevel(Side(pre, !o.isBuy))
  {
    hide SideValid, Ahead, Goal, QueuedIds, NoEmptyLevel;
    var own, opp, orders := Side(pre, o.isBuy), Side(pre, !o.isBuy), Pushed(pre, o).orders;
    QueuedAreKnown(own, o.isBuy, pre.orders, pre.clock);
    QueuedAreKnown(opp, !o.isBuy, pre.orders, pre.clock);
    SideFrame(opp, !o.isBuy, pre.orders, orders, pre.clock);
    BeginAhead(pre, o);
  }

  /** A crossing own level can only be the incoming order's, alone in front of the rest. */
  lemma CrossingTop(pre: Raw, o: Order, p: Progress)
    requires Matching(pre, o, p) && p.opp != []
    requires var own := if p.gone then Side(pre, o.isBuy) else Push(Side(pre, o.isBuy), p.cur);
      own != [] && Crosses(o.isBuy, own[0].price, p.opp[0].price)
    ensures !p.gone && Crosses(o.isBuy, o.level, p.opp[0].price)
    ensures Push(Side(pre, o.isBuy), p.cur) == [Level(o.level, [p.cur])] + Side(pre, o.isBuy)
    ensures var own := Side(pre, o.isBuy); own != [] ==> Rank(o.isBuy, o.level) < Rank(o.isBuy, own[0].price)
  {
  }

  /** The incoming order's own side, once the loop has stopped. */
  ghost function OwnAfter(pre: Raw, o: Order, p: Progress): seq<Level> {
    if p.gone then Side(pre, o.isBuy) else Push(Side(pre, o.isBuy), p.cur)
  }

  ghost function After(pre: Raw, o: Order, p: Progress): Raw {
    var own := OwnAfter(pre, o, p);
    Raw(if o.isBuy then own else p.opp, if o.isBuy then p.opp else own, p.orders, pre.clock + 1)
  }

  lemma NothingCrosses(cur: Order, levels: seq<Level>, orders: map<Id, Metadata>)
    requires Ladder(!cur.isBuy, levels) && NoEmptyLevel(levels)
    requires levels != [] ==> !Crosses(cur.isBuy, cur.level, levels[0].price)
    ensures Execute(cur, Live(levels, orders)) == Outcome([], Some(cur), Live(levels, orders))
  {
  }

  lemma PushHead(levels: seq<Level>, o: Order)
    ensures Push(levels, o) != []
    ensures Push(levels, o)[0].price == o.level || (levels != [] && Push(levels, o)[0].price == levels[0].price)
    ensures levels != [] ==> Rank(o.isBuy, Push(levels, o)[0].price) <= Rank(o.isBuy, levels[0].price)
    ensures Rank(o.isBuy, Push(levels, o)[0].price) <= Rank(o.isBuy, o.level)
  {
  }

  lemma FinishOwn(pre: Raw, o: Order, p: Progress)
    requires Valid(pre) && Matching(pre, o, p)
    ensures SideValid(o.isBuy, OwnAfter(pre, o, p), p.orders, pre.clock + 1) && NoEmptyLevel(OwnAfter(pre, o, p))
    ensures QueuedIds(OwnAfter(pre, o, p)) == QueuedIds(Side(pre, o.isBuy)) + if p.gone then {} else {o.id}
    ensures var own := Live(Side(pre, o.isBuy), pre.orders);
      Live(OwnAfter(pre, o, p), p.orders) == if p.gone then own else Insert(own, Resting(p.cur, pre.clock))
  {
    var own := Side(pre, o.isBuy);
    SideFrame(own, o.isBuy, pre.orders, p.orders, pre.clock);
    forall x | x in Flatten(own) ensures x.id in QueuedIds(own) {}
    LiveFrame(Flatten(own), pre.orders, p.orders);
    if !p.gone {
      PushKeepsValid(own, p.orders, pre.clock, p.cur);
      PushIsInsert(own, p.orders, p.cur);
    }
  }

  lemma LiveIds(levels: seq<Level>, orders: map<Id, Metadata>)
    ensures forall id ::
              id in IdsOf(Live(levels, orders)) <==> id in QueuedIds(levels) && id in orders && !orders[id].canceled
  {
    LiveMembers(Flatten(levels), orders);
    forall id | id in QueuedIds(levels) && id in orders && !orders[id].canceled
      ensures id in IdsOf(Live(levels, orders))
    {
      var o :| o in Flatten(levels) && o.id == id;
      assert Resting(o, orders[id].priority) in Live(levels, orders);
    }
  }

  /** A valid raw book refuses exactly the ids its reference book knows. */
  lemma KnownIds(raw: Raw, id: Id)
    requires Valid(raw)
    ensures Known(Eager(raw), id) <==> id in raw.orders
  {
    LiveIds(raw.bids, raw.orders);
    LiveIds(raw.asks, raw.orders);
  }

  lemma FinishValid(pre: Raw, o: Order, p: Progress)
    requires Valid(pre) && Matching(pre, o, p) && NoEmptyLevel(p.opp)
    requires OwnAfter(pre, o, p) != [] && p.opp != [] ==>
             !Crosses(o.isBuy, OwnAfter(pre, o, p)[0].price, p.opp[0].price)
    ensures Valid(After(pre, o, p))
  {
    FinishOwn(pre, o, p);
    SideClock(!o.isBuy, p.opp, p.orders, pre.clock);
  }

  lemma AddUnfolds(book: Book, o: Order, e: Outcome, own: seq<Resting>)
    requires !Known(book, o.id)
    requires e == Execute(o, if o.isBuy then book.asks else book.bids)
    requires own == if e.rest.None? then (if o.isBuy then book.bids else book.asks)
                    else Insert(if o.isBuy then book.bids else book.asks, Resting(e.rest.value, book.clock))
    ensures var bids, asks := if o.isBuy then own else e.side, if o.isBuy then e.side else own;
      Add(book, o) == (Book(bids, asks, book.refused, book.clock + 1), e.trades)
  {
  }

  lemma FinishGoal(pre: Raw, o: Order, p: Progress)
    requires Matching(pre, o, p) && NoEmptyLevel(p.opp)
    requires !p.gone && p.opp != [] ==> !Crosses(o.isBuy, o.level, p.opp[0].price)
    ensures Goal(pre, o) == Outcome(p.trades, if p.gone then None else Some(p.cur), Live(p.opp, p.orders))
    ensures Eager(After(pre, o, p)).refused == Eager(pre).refused
    ensures o.id !in pre.orders
  {
    if !p.gone {
      NothingCrosses(p.cur, p.opp, p.orders);
      assert p.trades + [] == p.trades;
    }
  }

  lemma FinishEager(pre: Raw, o: Order, p: Progress)
    requires Valid(pre) && Matching(pre, o, p) && NoEmptyLevel(p.opp)
    requires !p.gone && p.opp != [] ==> !Crosses(o.isBuy, o.level, p.opp[0].price)
    ensures Add(Eager(pre), o) == (Eager(After(pre, o, p)), p.trades)
  {
    hide Matching, Valid, Add, Known, Execute, Insert, SideValid, NoEmptyLevel, Flatten, Live;
    FinishGoal(pre, o, p);
    KnownIds(pre, o.id);
    FinishOwn(pre, o, p);
    AddUnfolds(Eager(pre), o, Goal(pre, o), Live(OwnAfter(pre, o, p), p.orders));
  }

  lemma Finish(pre: Raw, o: Order, p: Progress)
    requires Valid(pre) && Matching(pre, o, p) && NoEmptyLevel(p.opp)
    requires OwnAfter(pre, o, p) != [] && p.opp != [] ==>
             !Crosses(o.isBuy, OwnAfter(pre, o, p)[0].price, p.opp[0].price)
    ensures Valid(After(pre, o, p))
    ensures Add(Eager(pre), o) == (Eager(After(pre, o, p)), p.trades)
  {
    FinishValid(pre, o, p);
    if !p.gone {
      PushHead(Side(pre, o.isBuy), p.cur);
    }
    FinishEager(pre, o, p);
  }

  lemma SideClock(isBuy: bool, levels: seq<Level>, orders: map<Id, Metadata>, clock: nat)
    requires SideValid(isBuy, levels, orders, clock)
    ensures forall later: nat :: clock <= later ==> SideValid(isBuy, levels, orders, later)
  {
  }

  /** Another book drawing a number from the shared counter does not disturb this one. */
  lemma LaterClock(raw: Raw)
    requires Valid(raw)
    ensures Valid(raw.(clock := raw.clock + 1))
    ensures Eager(raw.(clock := raw.clock + 1)) == Eager(raw).(clock := raw.clock + 1) && Eager(raw).clock == raw.clock
  {
  }

  lemma CancelIsRemoval(raw: Raw, id: Id)
    requires Valid(raw) && id in raw.orders
    ensures var after := raw.(orders := raw.orders[id := raw.orders[id].(canceled := true)]);
      && Valid(after)
      && Eager(after) == Cancel(Eager(raw), id)
  {
    var orders := raw.orders[id := raw.orders[id].(canceled := true)];
    CancelSide(raw.bids, true, raw.orders, raw.clock, id);
    CancelSide(raw.asks, false, raw.orders, raw.clock, id);
    LiveIds(raw.bids, raw.orders);
    LiveIds(raw.asks, raw.orders);
    if raw.orders[id].canceled {
      assert orders == raw.orders;
    } else {
      assert Eager(raw.(orders := orders)).refused == Eager(raw).refused + {id};
    }
  }

  lemma CancelSide(levels: seq<Level>, isBuy: bool, m: map<Id, Metadata>, clock: nat, id: Id)
    requires SideValid(isBuy, levels, m, clock) && id in m
    ensures var m' := m[id := m[id].(canceled := true)];
      && SideValid(isBuy, levels, m', clock)
      && Live(levels, m') == Remove(Live(levels, m), id)
  {
    var m' := m[id := m[id].(canceled := true)];
    var f := Flatten(levels);
    forall a, b | 0 <= a < b < |f| ensures Before(isBuy, f[a], f[b], m') {
      assert Before(isBuy, f[a], f[b], m);
    }
    CancelLive(f, m, id);
  }

  lemma {:induction false} CancelLive(q: seq<Order>, m: map<Id, Metadata>, id: Id)
    requires id in m
    ensures LiveOf(q, m[id := m[id].(canceled := true)]) == Remove(LiveOf(q, m), id)
  {
    if q != [] {
      CancelLive(q[1..], m, id);
      var rest := LiveOf(q[1..], m);
      if q[0].id in m && !m[q[0].id].canceled {
        assert ([Resting(q[0], m[q[0].id].priority)] + rest)[1..] == rest;
      }
    }
  }

  lemma OwnReduced(cur: Order, rest: seq<Level>, size: int)
    ensures Reduced([Level(cur.level, [cur])] + rest, size) ==
            [Level(cur.level, if cur.quantity == size then [] else [cur.(quantity := cur.quantity - size)])] + rest
  {
    var own := [Level(cur.level, [cur])] + rest;
    assert own[1..] == rest;
    assert own[0].queue[1..] == [];
    var left := cur.(quantity := cur.quantity - size);
    assert [left] + own[0].queue[1..] == [left];
  }

  lemma Fronts(pre: Raw, o: Order, p: Progress)
    requires Matching(pre, o, p) && p.opp != [] && p.opp[0].queue != []
    ensures p.cur == o.(quantity := p.cur.quantity)
    ensures !p.gone ==> o.id in p.orders && p.orders[o.id] == Metadata(o.level, pre.clock, false)
    ensures var best := p.opp[0].queue[0];
      && best.id in p.orders && best.id != o.id && p.orders[best.id].priority < pre.clock
      && p.orders[best.id].level == best.level && best.level == p.opp[0].price && best.isBuy == !o.isBuy
      && Flatten(p.opp) != []
  {
  }

  // ----- the inner loop -----

  ghost function Entries(raw: Raw): nat { |Flatten(raw.bids)| + |Flatten(raw.asks)| }

  lemma PushEntries(pre: Raw, o: Order)
    requires Valid(pre)
    ensures Entries(Pushed(pre, o)) == Entries(pre) + 1
  {
    var k := PushSplits(Side(pre, o.isBuy), o);
  }

  /** The book while the inner loop runs: the incoming order alone at its level, against the best opposite level. */
  ghost predicate Inside(pre: Raw, o: Order, p: Progress, raw: Raw) {
    && raw.bids != [] && raw.asks != [] && p.opp != []
    && Matching(pre, o, p) && NoEmptyLevel(p.opp[1..]) && p.orders == raw.orders
    && Crosses(o.isBuy, o.level, p.opp[0].price)
    && Side(raw, o.isBuy) == [Level(o.level, if p.gone then [] else [p.cur])] + Side(pre, o.isBuy)
    && Side(raw, !o.isBuy) == p.opp
    && raw.clock == pre.clock + 1
  }

  ghost predicate BothQueued(raw: Raw) {
    raw.bids != [] && raw.asks != [] && raw.bids[0].queue != [] && raw.asks[0].queue != []
  }

  lemma InsideFronts(pre: Raw, o: Order, p: Progress, raw: Raw)
    requires Inside(pre, o, p, raw) && BothQueued(raw)
    ensures var bid, ask := raw.bids[0].queue[0], raw.asks[0].queue[0];
      && !p.gone && p.cur == (if o.isBuy then bid else ask)
      && bid.id != ask.id && bid.id in raw.orders && ask.id in raw.orders
      && !raw.orders[(if o.isBuy then bid else ask).id].canceled
  {
  }

  lemma InsideDrop(pre: Raw, o: Order, p: Progress, raw: Raw, raw': Raw)
    requires Inside(pre, o, p, raw) && BothQueued(raw)
    requires p.opp[0].queue != [] && p.opp[0].queue[0].id in raw.orders && raw.orders[p.opp[0].queue[0].id].canceled
    requires raw' == if o.isBuy then raw.(asks := PopFront(raw.asks)) else raw.(bids := PopFront(raw.bids))
    ensures Inside(pre, o, p.(opp := PopFront(p.opp)), raw') && Entries(raw') < Entries(raw)
  {
    hide Matching;
    Fronts(pre, o, p);
    DropCancelled(pre, o, p, p.(opp := PopFront(p.opp)));
    PopFlatten(p.opp);
  }

  lemma InsideTrade(pre: Raw, o: Order, p: Progress, raw: Raw, raw': Raw)
    requires Inside(pre, o, p, raw) && BothQueued(raw)
    requires p.opp[0].queue != [] && p.opp[0].queue[0].id in raw.orders && !raw.orders[p.opp[0].queue[0].id].canceled
    requires var bid, ask := raw.bids[0].queue[0], raw.asks[0].queue[0];
      var size := Min(bid.quantity, ask.quantity);
      raw' == Raw(Reduced(raw.bids, size), Reduced(raw.asks, size),
                  raw.orders - (if bid.quantity == size then {bid.id} else {})
                             - (if ask.quantity == size then {ask.id} else {}), raw.clock)
    ensures Inside(pre, o, Traded(p), raw') && Entries(raw') < Entries(raw)
    ensures var best := p.opp[0].queue[0];
      Traded(p).trades == p.trades + [Execution(p.cur, best, Min(p.cur.quantity, best.quantity))]
  {
    hide Matching, SideValid, PopFront, Refront, NoEmptyLevel, QueuedIds, Live, Goal, Ahead;
    InsideFronts(pre, o, p, raw);
    var size := Min(p.cur.quantity, p.opp[0].queue[0].quantity);
    Fronts(pre, o, p);
    OneTrade(pre, o, p);
    TradeSide(pre, o, p);
    OwnReduced(p.cur, Side(pre, o.isBuy), size);
    var own, own' := Side(raw, o.isBuy), Side(raw', o.isBuy);
    assert own[1..] == own'[1..] == Side(pre, o.isBuy);
    assert Traded(p).orders == raw'.orders;
  }

  /** A crossed book enters the inner loop with both best queues occupied. */
  lemma EnterLevels(pre: Raw, o: Order, p: Progress)
    requires Matching(pre, o, p) && NoEmptyLevel(p.opp) && Valid(pre)
    requires var raw := After(pre, o, p); raw.bids != [] && raw.asks != [] && raw.bids[0].price >= raw.asks[0].price
    ensures Inside(pre, o, p, After(pre, o, p)) && BothQueued(After(pre, o, p))
  {
    hide Valid, SideValid, IdsKnown;
    CrossingTop(pre, o, p);
  }

  lemma LeaveLevels(pre: Raw, o: Order, p: Progress, raw: Raw, raw': Raw) returns (p': Progress)
    requires Inside(pre, o, p, raw) && !BothQueued(raw) && Valid(pre)
    requires raw' == raw.(bids := if raw.bids[0].queue == [] then raw.bids[1..] else raw.bids,
                          asks := if raw.asks[0].queue == [] then raw.asks[1..] else raw.asks)
    ensures p'.trades == p.trades && Matching(pre, o, p') && NoEmptyLevel(p'.opp)
    ensures raw' == After(pre, o, p') && Entries(raw') == Entries(raw)
  {
    hide Matching, Valid, SideValid, Push, QueuedIds;
    p' := p;
    if p.opp[0].queue == [] {
      p' := p.(opp := p.opp[1..]);
      DropLevel(pre, o, p, p');
    }
    var own := Side(raw, o.isBuy);
    assert own[1..] == Side(pre, o.isBuy);
    assert Flatten(own) == own[0].queue + Flatten(own[1..]);
    if !p.gone {
      InsideOwn(pre, o, p, raw);
    }
  }

  /** While the incoming order is not filled, its level stays in front of its own side. */
  lemma InsideOwn(pre: Raw, o: Order, p: Progress, raw: Raw)
    requires Inside(pre, o, p, raw) && !p.gone && Valid(pre)
    ensures Side(raw, o.isBuy) == Push(Side(pre, o.isBuy), p.cur)
  {
  }

  // ----- the book object -----

  /** The static counter that every book takes its arrival numbers from. */
  class PriorityCounter {
    var value: nat

    constructor (start: nat)
      ensures value == start
    {
      value := start;
    }
  }

  class Orderbook {
    var bids: seq<Level>
    var asks: seq<Level>
    var orders: map<Id, Metadata>
    const currPriority: PriorityCounter

    ghost function State(): Raw
      reads this, currPriority
    {
      Raw(bids, asks, orders, currPriority.value)
    }

    constructor (counter: PriorityCounter)
      ensures currPriority == counter && bids == [] && asks == [] && orders == map[]
      ensures Valid(State())
    {
      currPriority := counter;
      bids, asks, orders := [], [], map[];
    }

    /** Refines the reference book's `Add`: same trades, and the same book underneath. */
    method AddOrder(order: Order) returns (trades: seq<Trade>, ghost rounds: nat)
      requires Valid(State())
      modifies this, currPriority
      ensures Valid(State())
      ensures (Eager(State()), trades) == Add(old(Eager(State())), order)
      ensures rounds + Entries(State()) <= old(Entries(State())) + if Known(old(Eager(State())), order.id) then 0 else 1
    {
      ghost var pre := State();
      KnownIds(pre, order.id);
      if order.id in orders {
        return [], 0;
      }
      if order.isBuy {
        bids := Push(bids, order);
      } else {
        asks := Push(asks, order);
      }
      orders := orders[order.id := Metadata(order.level, currPriority.value, false)];
      currPriority.value := currPriority.value + 1;
      PushEntries(pre, order);
      trades, rounds := Match(pre, order);
    }

    method CancelOrder(orderId: Id)
      requires Valid(State())
      modifies this
      ensures Valid(State())
      ensures Eager(State()) == Cancel(old(Eager(State())), orderId)
      ensures bids == old(bids) && asks == old(asks)
    {
      KnownIds(State(), orderId);
      if orderId !in orders {
        return;
      }
      CancelIsRemoval(State(), orderId);
      orders := orders[orderId := orders[orderId].(canceled := true)];
    }

    /** `pre` is the book before `o`, its newest order, was pushed. */
    method Match(ghost pre: Raw, ghost o: Order) returns (trades: seq<Trade>, ghost rounds: nat)
      requires Valid(pre) && o.id !in pre.orders && State() == Pushed(pre, o)
      modifies this
      ensures Valid(State())
      ensures (Eager(State()), trades) == Add(Eager(pre), o)
      ensures rounds + Entries(State()) <= old(Entries(State()))
    {
      hide Matching, Valid, Push, Entries, Add;
      trades, rounds := [], 0;
      ghost var p := Progress(o, false, Side(pre, !o.isBuy), orders, []);
      Begin(pre, o);
      while true
        invariant Matching(pre, o, p) && NoEmptyLevel(p.opp) && p.trades == trades
        invariant State() == After(pre, o, p)
        invariant rounds + Entries(State()) <= old(Entries(State()))
        decreases Entries(State())
      {
        if bids == [] || asks == [] {
          break;
        }
        var bidPrice, askPrice := bids[0].price, asks[0].price;
        if bidPrice < askPrice {
          break;
        }
        EnterLevels(pre, o, p);
        var more;
        ghost var inner;
        p, more, inner := MatchLevels(pre, o, p);
        trades, rounds := trades + more, rounds + inner;
        ghost var raw := State();
        if bids[0].queue == [] {
          bids := bids[1..];
        }
        if asks[0].queue == [] {
          asks := asks[1..];
        }
        p := LeaveLevels(pre, o, p, raw, State());
      }
      Finish(pre, o, p);
    }

    /** The inner loop: the best bid level against the best ask level, until one queue is empty. */
    method MatchLevels(ghost pre: Raw, ghost o: Order, ghost start: Progress)
      returns (ghost p: Progress, trades: seq<Trade>, ghost rounds: nat)
      requires Inside(pre, o, start, State()) && BothQueued(State())
      modifies this
      ensures Inside(pre, o, p, State()) && p.trades == start.trades + trades
      ensures !BothQueued(State()) && 0 < rounds && rounds + Entries(State()) <= old(Entries(State()))
    {
      hide Matching, SideValid, Reduced, Traded, Entries;
      p, trades, rounds := start, [], 0;
      while bids[0].queue != [] && asks[0].queue != []
        invariant Inside(pre, o, p, State()) && p.trades == start.trades + trades
        invariant rounds + Entries(State()) <= old(Entries(State())) && (rounds == 0 ==> BothQueued(State()))
        decreases Entries(State())
      {
        rounds := rounds + 1;
        var bid, ask := bids[0].queue[0], asks[0].queue[0];
        ghost var raw := State();
        InsideFronts(pre, o, p, raw);
        if orders[bid.id].canceled {
          bids := PopFront(bids);
          InsideDrop(pre, o, p, raw, State());
          p := p.(opp := PopFront(p.opp));
          continue;
        }
        if orders[ask.id].canceled {
          asks := PopFront(asks);
          InsideDrop(pre, o, p, raw, State());
          p := p.(opp := PopFront(p.opp));
          continue;
        }
        Fronts(pre, o, p);
        var trade := TradeFronts();
        InsideTrade(pre, o, p, raw, State());
        p := Traded(p);
        trades := trades + [trade];
      }
    }

    /** Fills the two front orders against each other; the later arrival is the aggressor. */
    method TradeFronts() returns (trade: Trade)
      requires bids != [] && bids[0].queue != [] && bids[0].queue[0].id in orders
      requires asks != [] && asks[0].queue != [] && asks[0].queue[0].id in orders
      requires bids[0].queue[0].id != asks[0].queue[0].id
      modifies this
      ensures var bid, ask := old(bids[0].queue[0]), old(asks[0].queue[0]);
        var size := Min(bid.quantity, ask.quantity);
        var late := old(orders[bid.id].priority) > old(orders[ask.id].priority);
        && bids == old(Reduced(bids, size)) && asks == old(Reduced(asks, size))
        && orders == old(orders) - (if bid.quantity == size then {bid.id} else {})
                                 - (if ask.quantity == size then {ask.id} else {})
        && (old(orders[bid.id].priority != orders[ask.id].priority) ==>
              trade == Trade(if late then ask.id else bid.id, if late then bid.id else ask.id,
                             if late then bid.id else ask.id,
                             late, old(orders[if late then ask.id else bid.id].level), size))
    {
      var bid, ask := bids[0].queue[0], asks[0].queue[0];
      var bidPriority, askPriority := orders[bid.id].priority, orders[ask.id].priority;
      var aggressorId := if bidPriority > askPriority then bid.id else ask.id;
      var existingId := if bidPriority < askPriority then bid.id else ask.id;
      var fillSize := Min(bid.quantity, ask.quantity);
      var fillPrice := orders[existingId].level;
      var askFill, bidFill := ask.Fill(fillSize), bid.Fill(fillSize);
      assert askFill.Success? && bidFill.Success?;
      ask, bid := askFill.value, bidFill.value;
      bids, asks := Refront(bids, bid), Refront(asks, ask);
      trade := Trade(existingId, aggressorId, aggressorId, aggressorId == bid.id, fillPrice, fillSize);
      if bid.quantity == 0 {
        orders := orders - {bid.id};
        bids := PopFront(bids);
      }
      if ask.quantity == 0 {
        orders := orders - {ask.id};
        asks := PopFront(asks);
      }
    }
  }
}
