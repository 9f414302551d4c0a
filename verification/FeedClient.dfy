/** The feed client: routes each message to the product it names. */
module FeedClient {
  import opened Messages
  import FeedProduct

  /** A parsed feed document: whether it has a type and a sequence number, its product, and the rest. */
  datatype Document = Document(hasType: bool, hasSequence: bool, productId: string, message: FeedMessage)

  /** The products of the client, each in its state. */
  type Client = map<string, FeedProduct.State>

  /** A document for the client, or a step of a thread of one of its products. */
  datatype ClientStep = Deliver(document: Document) | Internal(productId: string, step: FeedProduct.Step)

  function Next(c: Client, cs: ClientStep): Client {
    match cs
    case Deliver(d) =>
      if d.hasType && d.hasSequence && d.productId in c
      then c[d.productId := FeedProduct.Next(c[d.productId], FeedProduct.Receive(d.message))]
      else c
    case Internal(id, step) =>
      if id in c && !step.Receive? then c[id := FeedProduct.Next(c[id], step)] else c
  }

  function Run(c: Client, steps: seq<ClientStep>): Client
    decreases steps
  {
    if steps == [] then c else Run(Next(c, steps[0]), steps[1..])
  }

  /** What a product would see if it were alone: the documents with its id, a type and a sequence
      number, and the steps of its own threads. */
  function SeenBy(id: string, cs: ClientStep): seq<FeedProduct.Step> {
    match cs
    case Deliver(d) => if d.hasType && d.hasSequence && d.productId == id then [FeedProduct.Receive(d.message)] else []
    case Internal(p, step) => if p == id && !step.Receive? then [step] else []
  }

  function Alone(steps: seq<ClientStep>, id: string): seq<FeedProduct.Step> {
    if steps == [] then [] else SeenBy(id, steps[0]) + Alone(steps[1..], id)
  }

  /** Products do not interfere: after any interleaved run, each is in the state of its own run alone. */
  lemma {:induction false} ProductsDoNotInterfere(c: Client, steps: seq<ClientStep>, id: string)
    requires id in c
    ensures id in Run(c, steps) && Run(c, steps)[id] == FeedProduct.Run(c[id], Alone(steps, id))
    decreases steps
  {
    if steps != [] {
      ProductsDoNotInterfere(Next(c, steps[0]), steps[1..], id);
      var now := SeenBy(id, steps[0]);
      FeedProduct.RunConcat(c[id], now, Alone(steps[1..], id));
      assert now != [] ==> now[1..] == [];
      assert Next(c, steps[0])[id] == FeedProduct.Run(c[id], now);
    }
  }

  class CoinbaseFeedClient {
    var prodIdToListener: map<string, FeedProduct.CoinbaseFeedProduct>

    ghost function Footprint(): set<object>
      reads this
    {
      (set id | id in prodIdToListener :: prodIdToListener[id] as object)
      + (set id | id in prodIdToListener :: prodIdToListener[id].msgHandler as object)
    }

    ghost predicate Valid()
      reads this, Footprint()
    {
      && (forall id :: id in prodIdToListener ==> prodIdToListener[id].productId == id && prodIdToListener[id].Valid())
      && (forall id, id' :: id in prodIdToListener && id' in prodIdToListener && id != id' ==>
            prodIdToListener[id].msgHandler != prodIdToListener[id'].msgHandler)
    }

    ghost function View(): Client
      reads this, Footprint()
    {
      map id | id in prodIdToListener :: prodIdToListener[id].View()
    }

    constructor ()
      ensures Valid() && View() == map[]
    {
      prodIdToListener := map[];
    }

    method OnMessageReceived(jmsg: Document)
      requires Valid()
      modifies Footprint()
      ensures Valid() && View() == Next(old(View()), Deliver(jmsg))
    {
      if !jmsg.hasType {
        return;
      }
      if jmsg.hasSequence {
        if jmsg.productId in prodIdToListener {
          prodIdToListener[jmsg.productId].OnMessageReceived(jmsg.message);
        }
      }
    }

    method Subscribe(productId: string)
      requires Valid()
      modifies this
      ensures Valid() && prodIdToListener.Keys == old(prodIdToListener.Keys) + {productId}
      ensures forall id :: id in old(prodIdToListener) ==> prodIdToListener[id] == old(prodIdToListener[id])
      ensures productId !in old(prodIdToListener) ==>
        fresh(prodIdToListener[productId]) && prodIdToListener[productId].View() == FeedProduct.Initial
    {
      if productId !in prodIdToListener {
        var product := new FeedProduct.CoinbaseFeedProduct(productId);
        prodIdToListener := prodIdToListener[productId := product];
      }
    }

    method Unsubscribe(productId: string)
      requires Valid()
      modifies this
      ensures Valid() && prodIdToListener == old(prodIdToListener) - {productId}
    {
      prodIdToListener := prodIdToListener - {productId};
    }
  }
}
