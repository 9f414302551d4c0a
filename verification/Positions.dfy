/** What becomes of every position of the two vectors, under each kind of event and of feed message,
    on any book: the order of a vector is the order in which it is published. */
module Positions {
  import opened OrderBooks
  import opened ProductChanges
  import opened Messages

  /** The first order with this id is at position k. */
  ghost predicate First(orders: seq<Order>, k: int, id: string) {
    0 <= k < |orders| && orders[k].orderId == id && forall j :: 0 <= j < k ==> orders[j].orderId != id
  }

  ghost predicate Holds(orders: seq<Order>, id: string) {
    exists k :: First(orders, k, id)
  }

  /** The order is put at the end, and nothing else moves. */
  ghost predicate Appended(before: seq<Order>, after: seq<Order>, o: Order) {
    |after| == |before| + 1 && after[|before|] == o && forall k :: 0 <= k < |before| ==> after[k] == before[k]
  }

  /** The first order with the id is taken out: those before it stay, those behind it move down by one. */
  ghost predicate TakenOut(before: seq<Order>, after: seq<Order>, id: string) {
    && (!Holds(before, id) ==> after == before)
    && forall i :: First(before, i, id) ==>
      && |after| == |before| - 1
      && (forall k :: 0 <= k < i ==> after[k] == before[k])
      && (forall k :: i <= k < |after| ==> after[k] == before[k + 1])
  }

  /** The first order with the id has the new size, at its place; every other one is as it was. */
  ghost predicate SizedTo(before: seq<Order>, after: seq<Order>, id: string, size: real) {
    && |after| == |before|
    && forall k :: 0 <= k < |before| ==> after[k] == if First(before, k, id) then Order(before[k].price, size, id) else before[k]
  }

  /** The first order with the id is smaller by an amount, at its place; every other one is as it was. */
  ghost predicate ReducedBy(before: seq<Order>, after: seq<Order>, id: string, amount: real) {
    && |after| == |before|
    && forall k :: 0 <= k < |before| ==>
      after[k] == if First(before, k, id) then Order(before[k].price, before[k].size - amount, id) else before[k]
  }

  lemma FirstIsIndexOf(orders: seq<Order>, id: string)
    ensures forall k :: First(orders, k, id) <==> k == IndexOf(orders, id) < |orders|
    ensures Holds(orders, id) <==> IndexOf(orders, id) < |orders|
  {
    assert First(orders, IndexOf(orders, id), id) <==> IndexOf(orders, id) < |orders|;
  }

  lemma EraseAt(orders: seq<Order>, id: string)
    ensures TakenOut(orders, Erase(orders, id), id)
  {
    FirstIsIndexOf(orders, id);
  }

  lemma ResizeAt(orders: seq<Order>, id: string, size: real)
    ensures SizedTo(orders, Resize(orders, id, size), id, size)
  {
    FirstIsIndexOf(orders, id);
  }

  lemma DebitAt(orders: seq<Order>, id: string, amount: real)
    ensures ReducedBy(orders, Debit(orders, id, amount), id, amount)
  {
    FirstIsIndexOf(orders, id);
  }

  /** An open goes to the end of the vector of the side it names. */
  lemma OpenAt(b: Book, e: Event)
    requires e.Open?
    ensures var after, o := ApplyEvent(b, e), Order(e.price, e.remainingSize, e.orderId);
      if e.side == Sell then Appended(b.asks, after.asks, o) && after.bids == b.bids
      else Appended(b.bids, after.bids, o) && after.asks == b.asks
  {}

  /** A done takes the first order with its id out of the vector opposite to the side it names. */
  lemma DoneAt(b: Book, e: Event)
    requires e.Done?
    ensures var after := ApplyEvent(b, e);
      if e.side == Sell then TakenOut(b.bids, after.bids, e.orderId) && after.asks == b.asks
      else TakenOut(b.asks, after.asks, e.orderId) && after.bids == b.bids
  {
    EraseAt(b.bids, e.orderId);
    EraseAt(b.asks, e.orderId);
  }

  /** A change resizes the first order with its id, in place, in the vector opposite to that side. */
  lemma ChangeAt(b: Book, e: Event)
    requires e.Change?
    ensures var after := ApplyEvent(b, e);
      if e.side == Sell then SizedTo(b.bids, after.bids, e.orderId, e.newSize) && after.asks == b.asks
      else SizedTo(b.asks, after.asks, e.orderId, e.newSize) && after.bids == b.bids
  {
    ResizeAt(b.bids, e.orderId, e.newSize);
    ResizeAt(b.asks, e.orderId, e.newSize);
  }

  /** A match reduces, in place, the first maker in the vector opposite to the side it names and the
      first taker in the vector of that side, if the maker is there; if not it changes nothing. */
  lemma MatchAt(b: Book, e: Event)
    requires e.Match?
    ensures var after := ApplyEvent(b, e);
      var makers := if e.side == Sell then b.bids else b.asks;
      if !Holds(makers, e.makerOrderId) then after == b
      else if e.side == Sell then
        ReducedBy(b.bids, after.bids, e.makerOrderId, e.size) && ReducedBy(b.asks, after.asks, e.takerOrderId, e.size)
      else
        ReducedBy(b.asks, after.asks, e.makerOrderId, e.size) && ReducedBy(b.bids, after.bids, e.takerOrderId, e.size)
  {
    FirstIsIndexOf(if e.side == Sell then b.bids else b.asks, e.makerOrderId);
    DebitAt(b.bids, if e.side == Sell then e.makerOrderId else e.takerOrderId, e.size);
    DebitAt(b.asks, if e.side == Sell then e.takerOrderId else e.makerOrderId, e.size);
  }

  // Feed messages: which fields count, and which side the text names.

  /** A message and the change that a product makes of it. */
  ghost predicate Says(m: FeedMessage, e: Event) {
    match e
    case Open(id, price, size, side) =>
      m.kind == "open" && id == m.orderId && price == m.price && size == m.remainingSize && (side == Sell <==> m.side == "sell")
    case Done(id, side) =>
      m.kind == "done" && id == m.orderId && (side == Sell <==> m.side == "sell")
    case Match(maker, taker, price, size, side) =>
      m.kind == "match" && maker == m.makerOrderId && taker == m.takerOrderId && price == m.price && size == m.size
      && (side == Sell <==> m.side == "sell")
    case Change(id, price, size, side) =>
      m.kind == "change" && id == m.orderId && price == m.price && size == m.size && (side == Sell <==> m.side == "sell")
  }

  /** One of the four kinds that change a book. */
  predicate Loud(m: FeedMessage) {
    m.kind == "open" || m.kind == "done" || m.kind == "match" || m.kind == "change"
  }

  /** An entry that becomes a change: a message of these kinds, a full order book with its content. */
  predicate Counts(e: Entry) {
    if e.Live? then Loud(e.message) else e.content.Some?
  }

  /** The change bears the product's id and the entry's number, and holds what the entry holds, to any
      depth of merging. */
  ghost predicate Bears(pc: ProductChange, e: Entry, productId: string)
    decreases e, 1
  {
    && pc.productId == productId && pc.sequence == e.Sequence()
    && match e
       case Live(m) => pc.Increment? && Says(m, pc.event)
       case Snapshot(_, content, toMerge) =>
         && pc.Reset? && content.Some? && pc.bids == content.value.bids && pc.asks == content.value.asks
         && BearAll(pc.toMerge, toMerge, productId)
  }

  /** One change for each entry that counts, in order, and no other. */
  ghost predicate BearAll(pcs: seq<ProductChange>, es: seq<Entry>, productId: string)
    decreases es, 0
  {
    if es == [] then pcs == []
    else if Counts(es[0]) then pcs != [] && Bears(pcs[0], es[0], productId) && BearAll(pcs[1..], es[1..], productId)
    else BearAll(pcs, es[1..], productId)
  }

  lemma MessageSays(productId: string, m: FeedMessage)
    ensures Translate(productId, Live(m)).Some? <==> Loud(m)
    ensures Loud(m) ==>
      var pc := Translate(productId, Live(m)).value;
      pc.Increment? && pc.productId == productId && pc.sequence == m.sequence && Says(m, pc.event)
  {}

  lemma {:induction false} TranslationBears(productId: string, es: seq<Entry>)
    ensures BearAll(TranslateAll(productId, es), es, productId)
    decreases es
  {
    if es != [] {
      var e, rest := es[0], TranslateAll(productId, es[1..]);
      TranslationBears(productId, es[1..]);
      if e.Live? {
        MessageSays(productId, e.message);
      } else {
        TranslationBears(productId, e.toMerge);
      }
      if Counts(e) {
        assert ([Translate(productId, e).value] + rest)[1..] == rest;
      } else {
        assert [] + rest == rest;
      }
    }
  }

  /** The book after one message has been translated and applied. */
  function After(b: Book, productId: string, m: FeedMessage): Book {
    ApplyAll(b, TranslateAll(productId, [Live(m)]))
  }

  lemma AfterIsEvent(b: Book, productId: string, m: FeedMessage)
    ensures Loud(m) ==> exists e :: Says(m, e) && After(b, productId, m) == ApplyEvent(b, e)
    ensures !Loud(m) ==> After(b, productId, m) == b
  {
    MessageSays(productId, m);
    assert [Live(m)][1..] == [] && TranslateAll(productId, []) == [];
    if Loud(m) {
      var pc := Translate(productId, Live(m)).value;
      assert TranslateAll(productId, [Live(m)]) == [pc] && [pc][1..] == [];
      assert Says(m, pc.event) && ApplyAll(b, [pc]) == Apply(b, pc) == ApplyEvent(b, pc.event);
    }
  }

  /** An open that says sell lists its order last among the asks, any other one last among the bids. */
  lemma OpenMessage(b: Book, productId: string, m: FeedMessage)
    requires m.kind == "open"
    ensures var after, o := After(b, productId, m), Order(m.price, m.remainingSize, m.orderId);
      if m.side == "sell" then Appended(b.asks, after.asks, o) && after.bids == b.bids
      else Appended(b.bids, after.bids, o) && after.asks == b.asks
  {
    AfterIsEvent(b, productId, m);
    var e :| Says(m, e) && After(b, productId, m) == ApplyEvent(b, e);
    KindOf(m, e);
    OpenAt(b, e);
  }

  /** A done that says sell takes an order out of the bids, any other one out of the asks. */
  lemma DoneMessage(b: Book, productId: string, m: FeedMessage)
    requires m.kind == "done"
    ensures var after := After(b, productId, m);
      if m.side == "sell" then TakenOut(b.bids, after.bids, m.orderId) && after.asks == b.asks
      else TakenOut(b.asks, after.asks, m.orderId) && after.bids == b.bids
  {
    AfterIsEvent(b, productId, m);
    var e :| Says(m, e) && After(b, productId, m) == ApplyEvent(b, e);
    KindOf(m, e);
    DoneAt(b, e);
  }

  /** A change that says sell resizes an order of the bids, any other one an order of the asks. */
  lemma ChangeMessage(b: Book, productId: string, m: FeedMessage)
    requires m.kind == "change"
    ensures var after := After(b, productId, m);
      if m.side == "sell" then SizedTo(b.bids, after.bids, m.orderId, m.size) && after.asks == b.asks
      else SizedTo(b.asks, after.asks, m.orderId, m.size) && after.bids == b.bids
  {
    AfterIsEvent(b, productId, m);
    var e :| Says(m, e) && After(b, productId, m) == ApplyEvent(b, e);
    KindOf(m, e);
    ChangeAt(b, e);
  }

  /** A match that says sell has its maker in the bids and its taker in the asks, any other one the
      other way round. */
  lemma MatchMessage(b: Book, productId: string, m: FeedMessage)
    requires m.kind == "match"
    ensures var after := After(b, productId, m);
      var makers := if m.side == "sell" then b.bids else b.asks;
      if !Holds(makers, m.makerOrderId) then after == b
      else if m.side == "sell" then
        ReducedBy(b.bids, after.bids, m.makerOrderId, m.size) && ReducedBy(b.asks, after.asks, m.takerOrderId, m.size)
      else
        ReducedBy(b.asks, after.asks, m.makerOrderId, m.size) && ReducedBy(b.bids, after.bids, m.takerOrderId, m.size)
  {
    AfterIsEvent(b, productId, m);
    var e :| Says(m, e) && After(b, productId, m) == ApplyEvent(b, e);
    KindOf(m, e);
    MatchAt(b, e);
  }

  /** Any other kind changes no book. */
  lemma OtherMessage(b: Book, productId: string, m: FeedMessage)
    requires m.kind != "open" && m.kind != "done" && m.kind != "match" && m.kind != "change"
    ensures TranslateAll(productId, [Live(m)]) == [] && After(b, productId, m) == b
  {
    MessageSays(productId, m);
    assert [Live(m)][1..] == [];
  }

  /** The kind of a message decides the kind of the event. */
  lemma KindOf(m: FeedMessage, e: Event)
    requires Says(m, e)
    ensures e.Open? <==> m.kind == "open"
    ensures e.Done? <==> m.kind == "done"
    ensures e.Match? <==> m.kind == "match"
    ensures e.Change? <==> m.kind == "change"
  {
    assert "open"[0] != "done"[0] && "match"[0] != "open"[0] && "match"[0] != "done"[0];
    assert "change"[0] != "open"[0] && "change"[0] != "done"[0] && "change"[0] != "match"[0];
  }
}
