/** The order book of one product: two vectors of orders, searched from the front. */
module OrderBooks {

  datatype Side = Sell | Buy {
    function Opposite(): Side { if Sell? then Buy else Sell }
  }

  datatype Order = Order(price: real, size: real, orderId: string)

  /** The value of an order book: the contents of its two vectors. */
  datatype Book = Book(bids: seq<Order>, asks: seq<Order>) {
    function On(side: Side): seq<Order> { if side.Buy? then bids else asks }

    function With(side: Side, orders: seq<Order>): Book {
      if side.Buy? then Book(orders, asks) else Book(bids, orders)
    }
  }

  const EmptyBook := Book([], [])

  /** Position of the first order with this id, or |orders| (the end iterator) when there is none. */
  function IndexOf(orders: seq<Order>, id: string): (i: nat)
    ensures i <= |orders|
    ensures i < |orders| ==> orders[i].orderId == id
    ensures forall j :: 0 <= j < i ==> orders[j].orderId != id
  {
    if orders == [] || orders[0].orderId == id then 0 else 1 + IndexOf(orders[1..], id)
  }

  function Erase(orders: seq<Order>, id: string): seq<Order> {
    var i := IndexOf(orders, id);
    if i == |orders| then orders else orders[..i] + orders[i + 1..]
  }

  function Resize(orders: seq<Order>, id: string, size: real): seq<Order> {
    var i := IndexOf(orders, id);
    if i == |orders| then orders else orders[i := orders[i].(size := size)]
  }

  function Debit(orders: seq<Order>, id: string, amount: real): seq<Order> {
    var i := IndexOf(orders, id);
    if i == |orders| then orders else orders[i := orders[i].(size := orders[i].size - amount)]
  }

  // The four operations on values. An order is added to the vector of its own side, but
  // removed, resized and matched (as maker) in the vector of the opposite side.

  function Add(b: Book, order: Order, side: Side): Book {
    b.With(side, b.On(side) + [order])
  }

  function Remove(b: Book, id: string, side: Side): Book {
    b.With(side.Opposite(), Erase(b.On(side.Opposite()), id))
  }

  function Update(b: Book, id: string, newSize: real, side: Side): Book {
    b.With(side.Opposite(), Resize(b.On(side.Opposite()), id, newSize))
  }

  function Matched(b: Book, maker: string, taker: string, size: real, side: Side): Book {
    var makers := b.On(side.Opposite());
    if IndexOf(makers, maker) == |makers| then b
    else b.With(side.Opposite(), Debit(makers, maker, size)).With(side, Debit(b.On(side), taker, size))
  }

  class OrderBook {
    var bids: seq<Order>
    var asks: seq<Order>

    function View(): Book
      reads this
    {
      Book(bids, asks)
    }

    constructor ()
      ensures View() == EmptyBook
    {
      bids, asks := [], [];
    }

    /** Linear search for an id, as std::find_if does it. */
    static method FindIf(orders: seq<Order>, id: string) returns (it: nat)
      ensures it == IndexOf(orders, id)
      ensures it < |orders| ==> orders[it].orderId == id
      ensures forall j :: 0 <= j < it ==> orders[j].orderId != id
    {
      it := 0;
      while it < |orders| && orders[it].orderId != id
        invariant it <= |orders|
        invariant IndexOf(orders, id) == it + IndexOf(orders[it..], id)
      {
        assert orders[it..][1..] == orders[it + 1..];
        it := it + 1;
      }
    }

    method Init(newBids: seq<Order>, newAsks: seq<Order>)
      modifies this
      ensures View() == Book(newBids, newAsks)
    {
      bids, asks := [], [];
      for i := 0 to |newBids|
        invariant bids == newBids[..i] && asks == []
      {
        bids := bids + [newBids[i]];
      }
      for i := 0 to |newAsks|
        invariant bids == newBids && asks == newAsks[..i]
      {
        asks := asks + [newAsks[i]];
      }
    }

    method AddOrder(order: Order, side: Side)
      modifies this
      ensures View() == Add(old(View()), order, side)
    {
      if side == Buy {
        bids := bids + [order];
      } else {
        asks := asks + [order];
      }
    }

    method RemoveOrder(orderId: string, side: Side)
      modifies this
      ensures View() == Remove(old(View()), orderId, side)
    {
      if side == Buy {
        var it := FindIf(asks, orderId);
        if it != |asks| {
          asks := asks[..it] + asks[it + 1..];
        }
      } else {
        var it := FindIf(bids, orderId);
        if it != |bids| {
          bids := bids[..it] + bids[it + 1..];
        }
      }
    }

    method UpdateOrder(orderId: string, newSize: real, side: Side)
      modifies this
      ensures View() == Update(old(View()), orderId, newSize, side)
    {
      if side == Buy {
        var it := FindIf(asks, orderId);
        if it == |asks| {
          return;
        }
        asks := asks[it := asks[it].(size := newSize)];
      } else {
        var it := FindIf(bids, orderId);
        if it == |bids| {
          return;
        }
        bids := bids[it := bids[it].(size := newSize)];
      }
    }

    method MatchOrders(makerOrderId: string, takerOrderId: string, matchedSize: real, side: Side)
      modifies this
      ensures View() == Matched(old(View()), makerOrderId, takerOrderId, matchedSize, side)
    {
      if side == Sell {
        var it := FindIf(bids, makerOrderId);
        if it == |bids| {
          return;
        }
        bids := bids[it := bids[it].(size := bids[it].size - matchedSize)];
        var ita := FindIf(asks, takerOrderId);
        if ita == |asks| {
          return;
        }
        asks := asks[ita := asks[ita].(size := asks[ita].size - matchedSize)];
      } else {
        var it := FindIf(asks, makerOrderId);
        if it == |asks| {
          return;
        }
        asks := asks[it := asks[it].(size := asks[it].size - matchedSize)];
        var itb := FindIf(bids, takerOrderId);
        if itb == |bids| {
          return;
        }
        bids := bids[itb := bids[itb].(size := bids[itb].size - matchedSize)];
      }
    }
  }
}
