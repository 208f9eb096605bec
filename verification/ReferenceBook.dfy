/**
 The specification of the matching engine: orders, trades, and a book that keeps
 each side as one sequence in price-time priority and forgets a cancelled order at once.
 */
module ReferenceBook {
  import opened Wrappers

  type Id = nat

  datatype Order = Order(id: Id, level: int, isBuy: bool, quantity: int) {
    /** Filling more than the open quantity is the source's logic error. */
    function Fill(size: int): Result<Order, string> {
      if size > quantity then Failure("Fill size is greater than existing quantity")
      else Success(this.(quantity := quantity - size))
    }
  }

  datatype Trade = Trade(orderIdA: Id, orderIdB: Id, aggressorOrderId: Id,
                         aggressorIsBuy: bool, level: int, size: int)
  {
    function Buyer(): Id { if aggressorIsBuy then orderIdB else orderIdA }
    function Seller(): Id { if aggressorIsBuy then orderIdA else orderIdB }
  }

  /** An order waiting in the book together with the arrival number it was given. */
  datatype Resting = Resting(order: Order, priority: nat)

  /** `refused` are the ids of cancelled orders: they are never accepted again. */
  datatype Book = Book(bids: seq<Resting>, asks: seq<Resting>, refused: set<Id>, clock: nat)

  function Min(a: int, b: int): int { if b < a then b else a }

  /** Prices of one side, turned so that a smaller rank is a better price. */
  function Rank(isBuy: bool, price: int): int {
    if isBuy then -price else price
  }

  /** An order on side `isBuy` at `level` can trade with a resting order at `other`. */
  predicate Crosses(isBuy: bool, level: int, other: int) {
    if isBuy then level >= other else level <= other
  }

  function Execution(incoming: Order, resting: Order, size: int): Trade {
    Trade(resting.id, incoming.id, incoming.id, incoming.isBuy, resting.level, size)
  }

  /** `rest` is what remains of the incoming order; None when it was filled. */
  datatype Outcome = Outcome(trades: seq<Trade>, rest: Option<Order>, side: seq<Resting>)

  /** The side after its best order traded `size`; a filled order leaves. */
  function Shrunk(side: seq<Resting>, size: int): seq<Resting>
    requires side != []
  {
    var best := side[0].order;
    if best.quantity == size then side[1..]
    else [Resting(best.(quantity := best.quantity - size), side[0].priority)] + side[1..]
  }

  /** Trades `incoming` against the front of the opposite side until it no longer can. */
  function Execute(incoming: Order, side: seq<Resting>): Outcome
    decreases |side|
  {
    if side == [] || !Crosses(incoming.isBuy, incoming.level, side[0].order.level) then
      Outcome([], Some(incoming), side)
    else
      var size := Min(incoming.quantity, side[0].order.quantity);
      var trade := Execution(incoming, side[0].order, size);
      if incoming.quantity == size then
        Outcome([trade], None, Shrunk(side, size))
      else
        var more := Execute(incoming.(quantity := incoming.quantity - size), side[1..]);
        Outcome([trade] + more.trades, more.rest, more.side)
  }

  /** Behind every order at the same or a better price. */
  function Insert(side: seq<Resting>, r: Resting): seq<Resting> {
    if side == [] || Rank(r.order.isBuy, r.order.level) < Rank(r.order.isBuy, side[0].order.level) then [r] + side
    else [side[0]] + Insert(side[1..], r)
  }

  ghost function IdsOf(side: seq<Resting>): set<Id> {
    set r | r in side :: r.order.id
  }

  function Remove(side: seq<Resting>, id: Id): seq<Resting> {
    if side == [] then []
    else if side[0].order.id == id then Remove(side[1..], id)
    else [side[0]] + Remove(side[1..], id)
  }

  ghost predicate Known(book: Book, id: Id) {
    id in IdsOf(book.bids) || id in IdsOf(book.asks) || id in book.refused
  }

  ghost function Add(book: Book, order: Order): (Book, seq<Trade>) {
    if Known(book, order.id) then (book, [])
    else
      var e := Execute(order, if order.isBuy then book.asks else book.bids);
      var own := if order.isBuy then book.bids else book.asks;
      var own' := if e.rest.None? then own else Insert(own, Resting(e.rest.value, book.clock));
      (if order.isBuy then Book(own', e.side, book.refused, book.clock + 1)
       else Book(e.side, own', book.refused, book.clock + 1), e.trades)
  }

  ghost function Cancel(book: Book, id: Id): Book {
    if id in IdsOf(book.bids) || id in IdsOf(book.asks) then
      Book(Remove(book.bids, id), Remove(book.asks, id), book.refused + {id}, book.clock)
    else book
  }
}
