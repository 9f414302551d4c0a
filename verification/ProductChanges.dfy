/** The changes a product's book goes through, and the laws of replaying them. */
module ProductChanges {
  import opened OrderBooks

  /** One incremental change of a book. */
  datatype Event =
    | Open(orderId: string, price: real, remainingSize: real, side: Side)
    | Done(orderId: string, side: Side)
    | Match(makerOrderId: string, takerOrderId: string, price: real, size: real, side: Side)
    | Change(orderId: string, price: real, newSize: real, side: Side)

  datatype ProductChange =
    | Increment(productId: string, sequence: nat, event: Event)
    | Reset(productId: string, sequence: nat, bids: seq<Order>, asks: seq<Order>, toMerge: seq<ProductChange>)

  function ApplyEvent(b: Book, e: Event): Book {
    match e
    case Open(id, price, size, side) => Add(b, Order(price, size, id), side)
    case Done(id, side) => Remove(b, id, side)
    case Match(maker, taker, _, size, side) => Matched(b, maker, taker, size, side)
    case Change(id, _, newSize, side) => Update(b, id, newSize, side)
  }

  function Apply(b: Book, pc: ProductChange): Book
    decreases pc, 1
  {
    match pc
    case Increment(_, _, event) => ApplyEvent(b, event)
    case Reset(_, _, bids, asks, toMerge) => ApplyAll(Book(bids, asks), toMerge)
  }

  function ApplyAll(b: Book, pcs: seq<ProductChange>): Book
    decreases pcs, 0
  {
    if pcs == [] then b else ApplyAll(Apply(b, pcs[0]), pcs[1..])
  }

  /** The update of a book by one change; every kind of change reports that it updated the book. */
  method UpdateOrderBook(pc: ProductChange, orderBook: OrderBook) returns (updated: bool)
    modifies orderBook
    ensures updated
    ensures orderBook.View() == Apply(old(orderBook.View()), pc)
    decreases pc
  {
    match pc {
      case Increment(_, _, event) =>
        match event {
          case Open(id, price, size, side) => orderBook.AddOrder(Order(price, size, id), side);
          case Done(id, side) => orderBook.RemoveOrder(id, side);
          case Match(maker, taker, _, size, side) => orderBook.MatchOrders(maker, taker, size, side);
          case Change(id, _, newSize, side) => orderBook.UpdateOrder(id, newSize, side);
        }
      case Reset(_, _, bids, asks, toMerge) =>
        orderBook.Init(bids, asks);
        for i := 0 to |toMerge|
          invariant ApplyAll(orderBook.View(), toMerge[i..]) == Apply(old(orderBook.View()), pc)
        {
          assert toMerge[i..][1..] == toMerge[i + 1..];
          var _ := UpdateOrderBook(toMerge[i], orderBook);
        }
        assert toMerge[|toMerge|..] == [];
    }
    updated := true;
  }

  lemma {:induction false} ApplyAllConcat(b: Book, xs: seq<ProductChange>, ys: seq<ProductChange>)
    ensures ApplyAll(b, xs + ys) == ApplyAll(ApplyAll(b, xs), ys)
    decreases xs
  {
    if xs == [] {
      assert xs + ys == ys;
    } else {
      assert (xs + ys)[1..] == xs[1..] + ys;
      ApplyAllConcat(Apply(b, xs[0]), xs[1..], ys);
    }
  }

  /** A longer merge list is the shorter reset followed by the rest as ordinary changes. */
  lemma ResetSplits(b: Book, pc: ProductChange, later: seq<ProductChange>)
    requires pc.Reset?
    ensures Apply(b, pc.(toMerge := pc.toMerge + later)) == ApplyAll(Apply(b, pc), later)
  {
    ApplyAllConcat(Book(pc.bids, pc.asks), pc.toMerge, later);
  }

  /** A reset erases the past: only what comes after the last reset, and that reset, matters. */
  lemma {:induction false} ResetCutsHistory(b: Book, c: Book, before: seq<ProductChange>, pc: ProductChange, after: seq<ProductChange>)
    requires pc.Reset?
    ensures ApplyAll(b, before + [pc] + after) == ApplyAll(c, [pc] + after)
  {
    assert before + [pc] + after == before + ([pc] + after);
    ApplyAllConcat(b, before, [pc] + after);
  }

  /** The changes that a list of changes really performs, with every reset, at any depth, spelled
      out as an empty reset followed by its merged changes. */
  function Flatten(pcs: seq<ProductChange>): seq<ProductChange>
  {
    if pcs == [] then []
    else
      (match pcs[0]
       case Increment(_, _, _) => [pcs[0]]
       case Reset(_, _, _, _, toMerge) => [pcs[0].(toMerge := [])] + Flatten(toMerge))
      + Flatten(pcs[1..])
  }

  lemma {:induction false} FlatteningPreservesMeaning(b: Book, pcs: seq<ProductChange>)
    ensures ApplyAll(b, Flatten(pcs)) == ApplyAll(b, pcs)
    ensures forall i :: 0 <= i < |Flatten(pcs)| ==> Flatten(pcs)[i].Reset? ==> Flatten(pcs)[i].toMerge == []
    decreases pcs
  {
    if pcs != [] {
      FlatteningPreservesMeaning(Apply(b, pcs[0]), pcs[1..]);
      if pcs[0].Increment? {
        ApplyAllConcat(b, [pcs[0]], Flatten(pcs[1..]));
      } else {
        var bare := pcs[0].(toMerge := []);
        var merged := pcs[0].toMerge;
        FlatteningPreservesMeaning(Apply(b, bare), merged);
        assert Apply(b, bare) == Book(pcs[0].bids, pcs[0].asks);
        assert ([bare] + Flatten(merged))[1..] == Flatten(merged);
        assert ApplyAll(b, [bare] + Flatten(merged)) == Apply(b, pcs[0]);
        ApplyAllConcat(b, [bare] + Flatten(merged), Flatten(pcs[1..]));
      }
    }
  }
}
