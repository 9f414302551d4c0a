/** Feed messages, queue entries, and their translation into product changes. */
module Messages {
  import opened OrderBooks
  import opened ProductChanges

  datatype Option<+T> = None | Some(value: T)

  const MAX_SEQUENCE := 0xFFFF_FFFF_FFFF_FFFF
  type Sequence = n: int | 0 <= n <= MAX_SEQUENCE

  /** The successor of a sequence number, in unsigned 64-bit arithmetic. */
  function Succ(n: Sequence): Sequence {
    if n == MAX_SEQUENCE then 0 else n + 1
  }

  /** A decoded feed message; the fields that its kind does not use hold arbitrary values. */
  datatype FeedMessage = FeedMessage(
    kind: string,
    sequence: Sequence,
    orderId: string,
    makerOrderId: string,
    takerOrderId: string,
    price: real,
    size: real,
    remainingSize: real,
    side: string)

  /** What the queue of a product holds: feed messages, and full order books with the messages
      merged into them. The content is missing when the reply had no bids or no asks. */
  datatype Entry =
    | Live(message: FeedMessage)
    | Snapshot(number: Sequence, content: Option<Book>, toMerge: seq<Entry>)
  {
    function Sequence(): Sequence { if Live? then message.sequence else number }
  }

  function SideOf(side: string): Side { if side == "sell" then Sell else Buy }

  function Decode(m: FeedMessage): Option<Event> {
    if m.kind == "open" then Some(Open(m.orderId, m.price, m.remainingSize, SideOf(m.side)))
    else if m.kind == "done" then Some(Done(m.orderId, SideOf(m.side)))
    else if m.kind == "match" then Some(Match(m.makerOrderId, m.takerOrderId, m.price, m.size, SideOf(m.side)))
    else if m.kind == "change" then Some(Change(m.orderId, m.price, m.size, SideOf(m.side)))
    else None
  }

  /** A message of another kind changes no book: tickers, heartbeats and receipts among them. */
  predicate Inert(m: FeedMessage) { Decode(m).None? }

  function Translate(productId: string, e: Entry): Option<ProductChange>
    decreases e, 1
  {
    match e
    case Live(m) => if Decode(m).Some? then Some(Increment(productId, m.sequence, Decode(m).value)) else None
    case Snapshot(n, content, toMerge) =>
      if content.Some? then Some(Reset(productId, n, content.value.bids, content.value.asks, TranslateAll(productId, toMerge))) else None
  }

  function TranslateAll(productId: string, es: seq<Entry>): seq<ProductChange>
    decreases es, 0
  {
    if es == [] then []
    else (match Translate(productId, es[0]) case Some(pc) => [pc] case None => []) + TranslateAll(productId, es[1..])
  }

  // The reference meaning of messages: what each kind does to a book, all other kinds doing nothing.

  function Effect(b: Book, m: FeedMessage): Book {
    if m.kind == "open" then Add(b, Order(m.price, m.remainingSize, m.orderId), SideOf(m.side))
    else if m.kind == "done" then Remove(b, m.orderId, SideOf(m.side))
    else if m.kind == "match" then Matched(b, m.makerOrderId, m.takerOrderId, m.size, SideOf(m.side))
    else if m.kind == "change" then Update(b, m.orderId, m.size, SideOf(m.side))
    else b
  }

  function Play(b: Book, e: Entry): Book
    decreases e, 1
  {
    match e
    case Live(m) => Effect(b, m)
    case Snapshot(_, content, toMerge) => if content.Some? then PlayAll(content.value, toMerge) else b
  }

  function PlayAll(b: Book, es: seq<Entry>): Book
    decreases es, 0
  {
    if es == [] then b else PlayAll(Play(b, es[0]), es[1..])
  }

  lemma {:induction false} TranslateAllConcat(productId: string, xs: seq<Entry>, ys: seq<Entry>)
    ensures TranslateAll(productId, xs + ys) == TranslateAll(productId, xs) + TranslateAll(productId, ys)
    decreases xs
  {
    if xs == [] {
      assert xs + ys == ys;
    } else {
      assert (xs + ys)[1..] == xs[1..] + ys;
      TranslateAllConcat(productId, xs[1..], ys);
    }
  }

  /** Translating messages and replaying the changes is the same as playing the messages, to any
      depth of nesting. */
  lemma {:induction false} TranslationKeepsMeaning(b: Book, productId: string, es: seq<Entry>)
    ensures ApplyAll(b, TranslateAll(productId, es)) == PlayAll(b, es)
    decreases es
  {
    if es != [] {
      var e, rest := es[0], TranslateAll(productId, es[1..]);
      TranslationKeepsMeaning(Play(b, e), productId, es[1..]);
      if e.Snapshot? && e.content.Some? {
        TranslationKeepsMeaning(e.content.value, productId, e.toMerge);
      }
      match Translate(productId, e) {
        case Some(pc) =>
          assert Apply(b, pc) == Play(b, e);
          assert ([pc] + rest)[1..] == rest;
        case None =>
          assert Play(b, e) == b;
          assert [] + rest == rest;
      }
    }
  }

  /** Hands the change of each message to the listener, here the log of what it was given. */
  class CoinbaseFeedMessageHandler {
    const productId: string
    var listener: seq<ProductChange>

    constructor (productId: string)
      ensures this.productId == productId && listener == []
    {
      this.productId := productId;
      listener := [];
    }

    method GetProductChange(jmsg: Entry) returns (pc: Option<ProductChange>)
      ensures pc == Translate(productId, jmsg)
      decreases jmsg
    {
      pc := None;
      if jmsg.Snapshot? {
        if jmsg.content.Some? {
          var bids, asks := [], [];
          for i := 0 to |jmsg.content.value.asks|
            invariant asks == jmsg.content.value.asks[..i]
          {
            asks := asks + [jmsg.content.value.asks[i]];
          }
          for i := 0 to |jmsg.content.value.bids|
            invariant bids == jmsg.content.value.bids[..i]
          {
            bids := bids + [jmsg.content.value.bids[i]];
          }
          var toMerge := [];
          for i := 0 to |jmsg.toMerge|
            invariant toMerge + TranslateAll(productId, jmsg.toMerge[i..]) == TranslateAll(productId, jmsg.toMerge)
          {
            assert jmsg.toMerge[i..][1..] == jmsg.toMerge[i + 1..];
            var merged := GetProductChange(jmsg.toMerge[i]);
            if merged.Some? {
              toMerge := toMerge + [merged.value];
            }
          }
          assert jmsg.toMerge[|jmsg.toMerge|..] == [] && toMerge == TranslateAll(productId, jmsg.toMerge);
          assert bids == jmsg.content.value.bids && asks == jmsg.content.value.asks;
          pc := Some(Reset(productId, jmsg.number, bids, asks, toMerge));
        }
      } else {
        var m := jmsg.message;
        var side := if m.side == "sell" then Sell else Buy;
        if m.kind == "open" {
          pc := Some(Increment(productId, m.sequence, Open(m.orderId, m.price, m.remainingSize, side)));
        } else if m.kind == "done" {
          pc := Some(Increment(productId, m.sequence, Done(m.orderId, side)));
        } else if m.kind == "match" {
          pc := Some(Increment(productId, m.sequence, Match(m.makerOrderId, m.takerOrderId, m.price, m.size, side)));
        } else if m.kind == "change" {
          pc := Some(Increment(productId, m.sequence, Change(m.orderId, m.price, m.size, side)));
        }
      }
    }

    method OnMessageReceived(jmsg: Entry)
      modifies this
      ensures listener == old(listener) + TranslateAll(productId, [jmsg])
    {
      var pc := GetProductChange(jmsg);
      assert TranslateAll(productId, [jmsg][1..]) == [];
      if pc.Some? {
        listener := listener + [pc.value];
      }
    }
  }
}
