/** The total size on each side, accounted for event by event; duplicates of an id are allowed. */
module SizeLedger {
  import opened OrderBooks
  import opened ProductChanges

  function Total(orders: seq<Order>): real {
    if orders == [] then 0.0 else orders[0].size + Total(orders[1..])
  }

  predicate Listed(orders: seq<Order>, id: string) {
    IndexOf(orders, id) < |orders|
  }

  /** The size of the first order with this id, or nothing. */
  function SizeOf(orders: seq<Order>, id: string): real {
    if Listed(orders, id) then orders[IndexOf(orders, id)].size else 0.0
  }

  /** What an event adds to the total of a side: opened sizes, changes of size, minus sizes at
      removal, minus the matched size where both the match and the order take effect. */
  function Booking(b: Book, e: Event, side: Side): real {
    var orders := b.On(side);
    match e
    case Open(_, _, size, s) => if s == side then size else 0.0
    case Done(id, s) => if s != side then -SizeOf(orders, id) else 0.0
    case Change(id, _, size, s) => if s != side && Listed(orders, id) then size - SizeOf(orders, id) else 0.0
    case Match(maker, taker, _, size, s) =>
      if Listed(b.On(s.Opposite()), maker) && (s == side ==> Listed(orders, taker)) then -size else 0.0
  }

  function Bookings(b: Book, es: seq<Event>, side: Side): real
    decreases es
  {
    if es == [] then 0.0 else Booking(b, es[0], side) + Bookings(ApplyEvent(b, es[0]), es[1..], side)
  }

  function ApplyEvents(b: Book, es: seq<Event>): Book
    decreases es
  {
    if es == [] then b else ApplyEvents(ApplyEvent(b, es[0]), es[1..])
  }

  lemma {:induction false} TotalConcat(xs: seq<Order>, ys: seq<Order>)
    ensures Total(xs + ys) == Total(xs) + Total(ys)
    decreases xs
  {
    if xs == [] {
      assert xs + ys == ys;
    } else {
      assert (xs + ys)[1..] == xs[1..] + ys;
      TotalConcat(xs[1..], ys);
    }
  }

  lemma TotalSplit(orders: seq<Order>, i: nat)
    requires i < |orders|
    ensures Total(orders) == Total(orders[..i] + orders[i + 1..]) + orders[i].size
  {
    var before, o, after := orders[..i], orders[i], orders[i + 1..];
    assert orders == before + ([o] + after);
    assert ([o] + after)[1..] == after;
    TotalConcat(before, [o] + after);
    TotalConcat(before, after);
  }

  lemma TotalReplace(orders: seq<Order>, i: nat, o: Order)
    requires i < |orders|
    ensures Total(orders[i := o]) == Total(orders) - orders[i].size + o.size
  {
    TotalSplit(orders, i);
    TotalSplit(orders[i := o], i);
    assert orders[i := o][..i] + orders[i := o][i + 1..] == orders[..i] + orders[i + 1..];
  }

  lemma TotalEdits(orders: seq<Order>, id: string, x: real)
    ensures Total(Erase(orders, id)) == Total(orders) - SizeOf(orders, id)
    ensures Total(Resize(orders, id, x)) == Total(orders) + if Listed(orders, id) then x - SizeOf(orders, id) else 0.0
    ensures Total(Debit(orders, id, x)) == Total(orders) - if Listed(orders, id) then x else 0.0
  {
    var i := IndexOf(orders, id);
    if i < |orders| {
      TotalSplit(orders, i);
      TotalReplace(orders, i, orders[i].(size := x));
      TotalReplace(orders, i, orders[i].(size := orders[i].size - x));
    }
  }

  lemma EventIsBooked(b: Book, e: Event, side: Side)
    ensures Total(ApplyEvent(b, e).On(side)) == Total(b.On(side)) + Booking(b, e, side)
  {
    var orders := b.On(side);
    match e
    case Open(id, price, size, s) =>
      var o := Order(price, size, id);
      TotalConcat(orders, [o]);
      assert [o][1..] == [];
    case Done(id, s) =>
      TotalEdits(orders, id, 0.0);
    case Change(id, _, size, s) =>
      TotalEdits(orders, id, size);
    case Match(maker, taker, _, size, s) =>
      TotalEdits(orders, if s == side then taker else maker, size);
  }

  /** Over any list of events, on any book, each side's total moves by its bookings. */
  lemma {:induction false} LedgerBalances(b: Book, es: seq<Event>, side: Side)
    ensures Total(ApplyEvents(b, es).On(side)) == Total(b.On(side)) + Bookings(b, es, side)
    decreases es
  {
    if es != [] {
      EventIsBooked(b, es[0], side);
      LedgerBalances(ApplyEvent(b, es[0]), es[1..], side);
    }
  }

  /** A match of any size but zero keeps bid total minus ask total exactly when it finds both orders, or
      no maker; and with no maker it changes nothing at all. */
  lemma MatchBalancesIff(b: Book, e: Event)
    requires e.Match? && e.size != 0.0
    ensures var after, makers := ApplyEvent(b, e), b.On(e.side.Opposite());
      && (Total(after.bids) - Total(after.asks) == Total(b.bids) - Total(b.asks)
          <==> (Listed(makers, e.makerOrderId) ==> Listed(b.On(e.side), e.takerOrderId)))
      && (after == b <==> !Listed(makers, e.makerOrderId))
  {
    EventIsBooked(b, e, Buy);
    EventIsBooked(b, e, Sell);
  }
}
