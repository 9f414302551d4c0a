/** The synchronisation protocol of one product: feed messages are buffered while a full order
    book is requested, merged into it when it arrives, and accepted one by one after that. */
module FeedProduct {
  import opened OrderBooks
  import opened ProductChanges
  import opened Messages

  /** The answer to a full order book request: nothing at all, or a document that may lack its
      sequence number, or its bids and asks. */
  datatype Reply = Empty | Reply(sequence: Option<Sequence>, content: Option<Book>)

  /** The state of the request thread: still to enter the critical section, done having installed
      an order book, or returned without one. */
  datatype Fetch = Running | Installed | Failed

  datatype State = State(
    queue: seq<Entry>,      // m_messageQueue
    last: Sequence,         // m_lastSequenceNumber
    requesting: bool,       // m_requestingOrderbook
    fetch: Fetch,           // the request thread
    batch: seq<Entry>,      // what the message loop took and has not handed over yet
    delivered: seq<Entry>)  // what the message loop has handed over

  datatype Step =
    | Receive(message: FeedMessage)
    | FetchComplete(reply: Reply)
    | Drain
    | DeliverNext

  const Initial := State([], 0, true, Running, [], [])

  predicate Usable(reply: Reply) {
    reply.Reply? && reply.sequence.Some? && reply.sequence.value != 0
  }

  /** The entries numbered above n, in order. */
  function Newer(es: seq<Entry>, n: Sequence): seq<Entry> {
    if es == [] then []
    else (if es[0].Sequence() > n then [es[0]] else []) + Newer(es[1..], n)
  }

  /** The number of the last entry, or n when there is none. */
  function LastOf(es: seq<Entry>, n: Sequence): Sequence {
    if es == [] then n else es[|es| - 1].Sequence()
  }

  function Install(s: State, n: Sequence, content: Option<Book>): State {
    var merged := Newer(s.queue, n);
    s.(queue := [Snapshot(n, content, merged)], last := LastOf(merged, n), requesting := false, fetch := Installed)
  }

  /** One atomic step; a step whose thread is not at that point leaves the state alone. */
  function Next(s: State, step: Step): State {
    match step
    case Receive(m) =>
      if s.requesting then s.(queue := s.queue + [Live(m)])
      else if m.sequence > Succ(s.last) then s.(last := 0, requesting := true, fetch := Running)
      else if m.sequence <= s.last then s
      else s.(queue := s.queue + [Live(m)], last := m.sequence)
    case FetchComplete(reply) =>
      if s.fetch != Running then s
      else if Usable(reply) then Install(s, reply.sequence.value, reply.content)
      else s.(fetch := Failed)
    case Drain =>
      if s.batch == [] && !s.requesting then s.(batch := s.queue, queue := []) else s
    case DeliverNext =>
      if s.batch == [] then s else s.(batch := s.batch[1..], delivered := s.delivered + [s.batch[0]])
  }

  function Run(s: State, steps: seq<Step>): State
    decreases steps
  {
    if steps == [] then s else Run(Next(s, steps[0]), steps[1..])
  }

  /** The feed messages received during a run. */
  function Received(steps: seq<Step>): seq<FeedMessage> {
    if steps == [] then []
    else (if steps[0].Receive? then [steps[0].message] else []) + Received(steps[1..])
  }

  lemma {:induction false} RunConcat(s: State, xs: seq<Step>, ys: seq<Step>)
    ensures Run(s, xs + ys) == Run(Run(s, xs), ys)
    ensures Received(xs + ys) == Received(xs) + Received(ys)
    decreases xs
  {
    if xs == [] {
      assert xs + ys == ys;
    } else {
      assert (xs + ys)[1..] == xs[1..] + ys;
      RunConcat(Next(s, xs[0]), xs[1..], ys);
    }
  }

  class CoinbaseFeedProduct {
    const productId: string
    const msgHandler: CoinbaseFeedMessageHandler
    var messageQueue: seq<Entry>
    var lastSequenceNumber: Sequence
    var requestingOrderbook: bool
    var fullOrderBookRequestThread: Fetch
    var messages: seq<Entry>          // local to the message loop
    ghost var delivered: seq<Entry>

    ghost function View(): State
      reads this
    {
      State(messageQueue, lastSequenceNumber, requestingOrderbook, fullOrderBookRequestThread, messages, delivered)
    }

    /** The mode: a request is under way exactly when the last sequence number is zero, and
        exactly when the request thread has not installed its book. */
    ghost predicate Valid()
      reads this, msgHandler
    {
      && (requestingOrderbook <==> lastSequenceNumber == 0)
      && (requestingOrderbook <==> fullOrderBookRequestThread != Installed)
      && msgHandler.productId == productId
      && msgHandler.listener == TranslateAll(productId, delivered)
    }

    constructor (productId: string)
      ensures Valid() && fresh(msgHandler)
      ensures this.productId == productId && View() == Initial
    {
      this.productId := productId;
      msgHandler := new CoinbaseFeedMessageHandler(productId);
      messageQueue, lastSequenceNumber, requestingOrderbook := [], 0, true;
      fullOrderBookRequestThread := Running;
      messages, delivered := [], [];
    }

    /** The previous thread is joined with the message mutex held, so it must not be on its way
        into its critical section. */
    method RequestFullOrderBook()
      requires fullOrderBookRequestThread != Running
      modifies this`requestingOrderbook, this`fullOrderBookRequestThread
      ensures requestingOrderbook && fullOrderBookRequestThread == Running
    {
      requestingOrderbook := true;
      fullOrderBookRequestThread := Running;
    }

    method OnMessageReceived(message: FeedMessage)
      requires Valid()
      modifies this
      ensures Valid() && View() == Next(old(View()), Receive(message))
    {
      var sequence := message.sequence;
      if requestingOrderbook {
        messageQueue := messageQueue + [Live(message)];
        return;
      }
      if sequence > Succ(lastSequenceNumber) {
        lastSequenceNumber := 0;
        RequestFullOrderBook();
      } else if sequence <= lastSequenceNumber {
        return;
      } else {
        messageQueue := messageQueue + [Live(message)];
        lastSequenceNumber := sequence;
      }
    }

    /** Empties the queue into the merge list of a new order book. */
    method MergeQueue(orderBookSequence: Sequence) returns (toMerge: seq<Entry>)
      modifies this`messageQueue, this`lastSequenceNumber
      ensures messageQueue == [] && toMerge == Newer(old(messageQueue), orderBookSequence)
      ensures lastSequenceNumber == LastOf(toMerge, orderBookSequence) >= orderBookSequence
    {
      toMerge := [];
      lastSequenceNumber := orderBookSequence;
      while messageQueue != []
        invariant toMerge + Newer(messageQueue, orderBookSequence) == Newer(old(messageQueue), orderBookSequence)
        invariant lastSequenceNumber == LastOf(toMerge, orderBookSequence) >= orderBookSequence
        decreases |messageQueue|
      {
        var message := messageQueue[0];
        messageQueue := messageQueue[1..];
        var sequence := message.Sequence();
        ghost var rest := Newer(messageQueue, orderBookSequence);
        if sequence > orderBookSequence {
          assert toMerge + ([message] + rest) == (toMerge + [message]) + rest;
          lastSequenceNumber := sequence;
          toMerge := toMerge + [message];
        } else {
          assert [] + rest == rest;
        }
      }
    }

    /** The request thread, from its reply on. */
    method RequestFullOrderBookImpl(reply: Reply)
      requires Valid() && fullOrderBookRequestThread == Running
      modifies this
      ensures Valid() && View() == Next(old(View()), FetchComplete(reply))
    {
      if reply == Empty || reply.sequence == None || reply.sequence.value == 0 {
        fullOrderBookRequestThread := Failed;
        return;
      }
      var toMerge := MergeQueue(reply.sequence.value);
      messageQueue := [Snapshot(reply.sequence.value, reply.content, toMerge)] + messageQueue;
      requestingOrderbook := false;
      fullOrderBookRequestThread := Installed;
    }

    /** The critical section of the message loop. */
    method TakeMessages()
      requires Valid() && messages == []
      modifies this
      ensures Valid() && View() == Next(old(View()), Drain)
    {
      if !requestingOrderbook {
        messages := messageQueue;
        messageQueue := [];
      }
    }

    /** One turn of the loop that hands the messages over. */
    method HandleNextMessage()
      requires Valid() && messages != []
      modifies this, msgHandler
      ensures Valid() && View() == Next(old(View()), DeliverNext)
      ensures msgHandler.listener == old(msgHandler.listener) + TranslateAll(productId, [old(messages[0])])
    {
      TranslateAllConcat(productId, delivered, [messages[0]]);
      msgHandler.OnMessageReceived(messages[0]);
      delivered := delivered + [messages[0]];
      messages := messages[1..];
    }
  }
}
