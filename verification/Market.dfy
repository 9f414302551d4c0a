/** The market: changes of all products wait in a hash multimap, and each turn of the handler takes
    them all, applies them product by product, and publishes each touched book once. */
module Markets {
  import opened OrderBooks
  import opened ProductChanges

  /** The changes of one product, in order. */
  function Of(pcs: seq<ProductChange>, id: string): seq<ProductChange> {
    if pcs == [] then [] else (if pcs[0].productId == id then [pcs[0]] else []) + Of(pcs[1..], id)
  }

  /** What iterating a hash multimap promises: the changes of a product are next to each other. */
  ghost predicate Grouped(pcs: seq<ProductChange>) {
    forall i, j, k :: 0 <= i < j < k < |pcs| && pcs[i].productId == pcs[k].productId ==> pcs[j].productId == pcs[i].productId
  }

  /** Where a hash multimap may put a change: next to one of the same product, and anywhere between
      two products, or at either end, when it holds none of that product. */
  ghost predicate Fits(pcs: seq<ProductChange>, id: string, at: nat) {
    && at <= |pcs|
    && if exists pc :: pc in pcs && pc.productId == id
       then (at > 0 && pcs[at - 1].productId == id) || (at < |pcs| && pcs[at].productId == id)
       else 0 < at < |pcs| ==> pcs[at - 1].productId != pcs[at].productId
  }

  function Inserted(pcs: seq<ProductChange>, pc: ProductChange, at: nat): seq<ProductChange>
    requires at <= |pcs|
  {
    pcs[..at] + [pc] + pcs[at..]
  }

  /** In a grouped list, what lies between two changes of a product, ends included, is of that product. */
  lemma Between(pcs: seq<ProductChange>, i: nat, j: nat, k: nat)
    requires Grouped(pcs) && i <= j <= k < |pcs| && pcs[i].productId == pcs[k].productId
    ensures pcs[j].productId == pcs[i].productId
  {}

  /** A change is not put between two others of another product. */
  lemma PutBetween(pcs: seq<ProductChange>, id: string, at: nat, i: nat, k: nat)
    requires Grouped(pcs) && Fits(pcs, id, at) && i < at <= k < |pcs|
    requires pcs[i].productId == pcs[k].productId
    ensures pcs[i].productId == id
  {
    Between(pcs, i, at - 1, k);
    Between(pcs, i, at, k);
  }

  /** What lies between its place and another change of its product is of its product. */
  lemma PutBeside(pcs: seq<ProductChange>, id: string, at: nat, j: nat, k: nat)
    requires Grouped(pcs) && Fits(pcs, id, at) && k < |pcs| && pcs[k].productId == id
    requires at <= j <= k || k <= j < at
    ensures pcs[j].productId == id
  {
    assert pcs[k] in pcs;
    if at > 0 && pcs[at - 1].productId == id {
      if k < at { Between(pcs, k, j, at - 1); } else { Between(pcs, at - 1, j, k); }
    } else {
      if k < at { Between(pcs, k, j, at); } else { Between(pcs, at, j, k); }
    }
  }

  /** The position of a change before the one at this position was put in. */
  function Was(at: nat, i: nat): nat
    requires i != at
  {
    if i < at then i else i - 1
  }

  lemma InsertBetween(pcs: seq<ProductChange>, pc: ProductChange, at: nat, i: nat, j: nat, k: nat)
    requires Grouped(pcs) && Fits(pcs, pc.productId, at) && i < j < k <= |pcs|
    requires i != at && k != at ==> pcs[Was(at, i)].productId == pcs[Was(at, k)].productId
    requires i == at ==> pcs[Was(at, k)].productId == pc.productId
    requires k == at ==> pcs[Was(at, i)].productId == pc.productId
    ensures j == at ==> pcs[i].productId == pc.productId
    ensures j != at ==> pcs[Was(at, j)].productId == if i == at then pc.productId else pcs[Was(at, i)].productId
  {
    if j == at {
      PutBetween(pcs, pc.productId, at, i, k - 1);
    } else if i == at {
      PutBeside(pcs, pc.productId, at, j - 1, k - 1);
    } else if k == at {
      PutBeside(pcs, pc.productId, at, j, i);
    } else {
      Between(pcs, Was(at, i), Was(at, j), Was(at, k));
    }
  }

  lemma InsertedAt(pcs: seq<ProductChange>, pc: ProductChange, at: nat, i: nat)
    requires at <= |pcs| && i <= |pcs|
    ensures |Inserted(pcs, pc, at)| == |pcs| + 1
    ensures Inserted(pcs, pc, at)[i] == if i == at then pc else pcs[Was(at, i)]
  {}

  lemma InsertKeepsGrouped(pcs: seq<ProductChange>, pc: ProductChange, at: nat)
    requires Grouped(pcs) && Fits(pcs, pc.productId, at)
    ensures Grouped(Inserted(pcs, pc, at))
  {
    var longer := Inserted(pcs, pc, at);
    forall i, j, k | 0 <= i < j < k < |longer| && longer[i].productId == longer[k].productId
      ensures longer[j].productId == longer[i].productId
    {
      InsertedAt(pcs, pc, at, i);
      InsertedAt(pcs, pc, at, j);
      InsertedAt(pcs, pc, at, k);
      InsertBetween(pcs, pc, at, i, j, k);
    }
  }

  lemma MisfitBreaks(pcs: seq<ProductChange>, pc: ProductChange, at: nat)
    requires at <= |pcs| && !Fits(pcs, pc.productId, at)
    ensures !Grouped(Inserted(pcs, pc, at))
  {
    var longer, id := Inserted(pcs, pc, at), pc.productId;
    if d :| d in pcs && d.productId == id {
      var k :| 0 <= k < |pcs| && pcs[k] == d;
      if k < at {
        assert longer[k].productId == longer[at].productId == id && longer[at - 1].productId != id;
      } else {
        assert longer[at].productId == longer[k + 1].productId == id && longer[at + 1].productId != id;
      }
    } else {
      assert longer[at - 1].productId == longer[at + 1].productId && longer[at] == pc;
      assert longer[at - 1] in pcs;
    }
  }

  /** A change put into a grouped list keeps it grouped exactly where it fits. */
  lemma GroupedIffFits(pcs: seq<ProductChange>, pc: ProductChange, at: nat)
    requires Grouped(pcs) && at <= |pcs|
    ensures Grouped(Inserted(pcs, pc, at)) <==> Fits(pcs, pc.productId, at)
  {
    if Fits(pcs, pc.productId, at) {
      InsertKeepsGrouped(pcs, pc, at);
    } else {
      MisfitBreaks(pcs, pc, at);
    }
  }

  lemma InsertAdds(pcs: seq<ProductChange>, pc: ProductChange, at: nat)
    requires at <= |pcs|
    ensures multiset(Inserted(pcs, pc, at)) == multiset(pcs) + multiset{pc}
  {
    assert pcs == pcs[..at] + pcs[at..];
  }

  /** There is always a place that fits. */
  lemma SomePlaceFits(pcs: seq<ProductChange>, id: string) returns (at: nat)
    ensures Fits(pcs, id, at)
  {
    if pc :| pc in pcs && pc.productId == id {
      at :| 0 <= at < |pcs| && pcs[at] == pc;
    } else {
      at := 0;
    }
  }

  datatype ProductState = ProductState(book: Book, published: seq<Book>)

  /** The changes in the order of iteration, and the products by id. */
  datatype MarketState = MarketState(pending: seq<ProductChange>, products: map<string, ProductState>)

  function After(p: ProductState, pcs: seq<ProductChange>): ProductState {
    if pcs == [] then p else ProductState(ApplyAll(p.book, pcs), p.published + [ApplyAll(p.book, pcs)])
  }

  function Drained(s: MarketState): MarketState {
    MarketState([], map id | id in s.products :: After(s.products[id], Of(s.pending, id)))
  }

  /** The market with a subscription: an unknown product starts with an empty book. */
  function Subscribed(s: MarketState, id: string): MarketState {
    if id in s.products then s else s.(products := s.products[id := ProductState(EmptyBook, [])])
  }

  lemma {:induction false} OfConcat(xs: seq<ProductChange>, ys: seq<ProductChange>, id: string)
    ensures Of(xs + ys, id) == Of(xs, id) + Of(ys, id)
    decreases xs
  {
    if xs == [] {
      assert xs + ys == ys;
    } else {
      var first := if xs[0].productId == id then [xs[0]] else [];
      assert (xs + ys)[0] == xs[0] && (xs + ys)[1..] == xs[1..] + ys;
      OfConcat(xs[1..], ys, id);
      assert first + (Of(xs[1..], id) + Of(ys, id)) == first + Of(xs[1..], id) + Of(ys, id);
    }
  }

  lemma {:induction false} OfGroup(pcs: seq<ProductChange>, group: string, id: string)
    requires forall pc :: pc in pcs ==> pc.productId == group
    ensures Of(pcs, id) == if id == group then pcs else []
  {
    if pcs != [] {
      assert pcs[0] in pcs;
      OfGroup(pcs[1..], group, id);
    }
  }

  lemma {:induction false} OfNone(pcs: seq<ProductChange>, id: string)
    requires forall pc :: pc in pcs ==> pc.productId != id
    ensures Of(pcs, id) == []
  {
    if pcs != [] {
      assert pcs[0] in pcs;
      OfNone(pcs[1..], id);
    }
  }

  class Product {
    const productId: string
    const orderBook: OrderBook
    var published: seq<Book>    // what the publisher was given

    function View(): ProductState
      reads this, orderBook
    {
      ProductState(orderBook.View(), published)
    }

    constructor (productId: string)
      ensures this.productId == productId && fresh(orderBook) && View() == ProductState(EmptyBook, [])
    {
      this.productId := productId;
      orderBook := new OrderBook();
      published := [];
    }

    method OnProductChanges(pcs: seq<ProductChange>)
      modifies this, orderBook
      ensures View() == After(old(View()), pcs)
    {
      if pcs == [] {
        return;
      }
      var bookUpdated := false;
      for i := 0 to |pcs|
        invariant ApplyAll(orderBook.View(), pcs[i..]) == ApplyAll(old(orderBook.View()), pcs)
        invariant bookUpdated <==> i > 0
        invariant published == old(published)
      {
        assert pcs[i..][1..] == pcs[i + 1..];
        var update := UpdateOrderBook(pcs[i], orderBook);
        if update {
          bookUpdated := true;
        }
      }
      assert pcs[|pcs|..] == [];
      if bookUpdated {
        published := published + [orderBook.View()];
      }
    }
  }

  class Market {
    var productChanges: seq<ProductChange>
    var products: map<string, Product>

    ghost function Footprint(): set<object>
      reads this
    {
      (set id | id in products :: products[id] as object) + (set id | id in products :: products[id].orderBook as object)
    }

    ghost predicate Valid()
      reads this
    {
      && (forall id :: id in products ==> products[id].productId == id)
      && (forall id, id' :: id in products && id' in products && id != id' ==> products[id].orderBook != products[id'].orderBook)
    }

    ghost function View(): MarketState
      reads this, Footprint()
    {
      MarketState(productChanges, map id | id in products :: products[id].View())
    }

    constructor ()
      ensures Valid() && Grouped(productChanges) && View() == MarketState([], map[])
    {
      productChanges, products := [], map[];
    }

    /** The multimap takes one more change, at any place that fits. */
    method OnProductChange(pc: ProductChange, at: nat)
      requires Valid() && Grouped(productChanges) && Fits(productChanges, pc.productId, at)
      modifies this`productChanges
      ensures Valid() && Grouped(productChanges) && multiset(productChanges) == multiset(old(productChanges)) + multiset{pc}
      ensures View() == old(View()).(pending := Inserted(old(productChanges), pc, at))
    {
      InsertKeepsGrouped(productChanges, pc, at);
      InsertAdds(productChanges, pc, at);
      productChanges := productChanges[..at] + [pc] + productChanges[at..];
    }

    /** The market's part of a subscription: an unknown product starts with an empty book. */
    method Subscribe(prodId: string)
      requires Valid()
      modifies this`products
      ensures Valid() && products.Keys == old(products.Keys) + {prodId} && View() == Subscribed(old(View()), prodId)
      ensures forall id :: id in old(products) ==> products[id] == old(products[id])
      ensures prodId !in old(products) ==> fresh(products[prodId])
    {
      if prodId !in products {
        ghost var before := View().products;
        var product := new Product(prodId);
        products := products[prodId := product];
        assert forall id :: id in before ==> products[id].View() == before[id];
        assert View().products == before[prodId := ProductState(EmptyBook, [])];
      }
    }

    /** The end of the run of changes that starts at an iterator and has its product id. */
    static method GroupEnd(current: seq<ProductChange>, start: nat) returns (changes: seq<ProductChange>, end: nat)
      requires start < |current|
      ensures start < end <= |current| && changes == current[start..end]
      ensures forall pc :: pc in changes ==> pc.productId == current[start].productId
      ensures end < |current| ==> current[end].productId != current[start].productId
    {
      var productId := current[start].productId;
      changes, end := [], start;
      while end != |current| && current[end].productId == productId
        invariant start <= end <= |current| && changes == current[start..end]
        invariant forall pc :: pc in changes ==> pc.productId == productId
        decreases |current| - end
      {
        changes := changes + [current[end]];
        end := end + 1;
      }
    }

    /** The changes of one product reach that product, if there is one, and no other. */
    method ApplyGroup(productId: string, changes: seq<ProductChange>)
      requires Valid()
      modifies Footprint()
      ensures forall id :: id in products ==>
        products[id].View() == if id == productId then After(old(products[id].View()), changes) else old(products[id].View())
    {
      if productId in products {
        products[productId].OnProductChanges(changes);
      }
    }

    /** The inner loop and what follows it: the group at the iterator, and the iterator after it. */
    method ProcessGroup(current: seq<ProductChange>, it: nat) returns (end: nat)
      requires Valid() && it < |current|
      modifies Footprint()
      ensures it < end <= |current| && (end < |current| ==> current[end].productId != current[it].productId)
      ensures forall pc :: pc in current[it..end] ==> pc.productId == current[it].productId
      ensures forall id :: id in products ==> products[id].View() == After(old(products[id].View()), Of(current[it..end], id))
    {
      var changes;
      changes, end := GroupEnd(current, it);
      ghost var before := View().products;
      ApplyGroup(current[it].productId, changes);
      forall id | id in products ensures products[id].View() == After(before[id], Of(changes, id)) {
        OfGroup(changes, current[it].productId, id);
      }
    }

    /** One turn of the handler thread. */
    method ProcessProductChanges()
      requires Valid() && Grouped(productChanges)
      modifies this`productChanges, Footprint()
      ensures Valid() && Grouped(productChanges) && products == old(products)
      ensures View() == Drained(old(View()))
    {
      var current := productChanges;
      ghost var start := View().products;
      productChanges := [];
      var it := 0;
      while it != |current|
        invariant it <= |current| && GroupStart(current, it)
        invariant products == old(products) && productChanges == []
        invariant forall id :: id in products ==> products[id].View() == After(start[id], Of(current[..it], id))
        decreases |current| - it
      {
        var end := ProcessGroup(current, it);
        GroupIsNew(current, it, end);
        AfterGroups(current, it, end, start);
        it := end;
      }
      assert current[..it] == current;
    }
  }

  /** An iterator stands where a group starts. */
  ghost predicate GroupStart(current: seq<ProductChange>, it: nat)
    requires it <= |current|
  {
    0 < it < |current| ==> current[it - 1].productId != current[it].productId
  }

  /** In a grouped list, the changes before a group are of other products. */
  lemma GroupIsNew(current: seq<ProductChange>, start: nat, end: nat)
    requires Grouped(current) && start < end <= |current| && GroupStart(current, start)
    requires forall pc :: pc in current[start..end] ==> pc.productId == current[start].productId
    ensures Of(current[..start], current[start].productId) == []
    ensures end < |current| && current[end].productId != current[start].productId ==> GroupStart(current, end)
  {
    forall pc | pc in current[..start] ensures pc.productId != current[start].productId {
      var i :| 0 <= i < start && current[i] == pc;
    }
    OfNone(current[..start], current[start].productId);
    assert current[end - 1] in current[start..end];
  }

  /** A product's changes all come in one group, so taking them group by group is taking them at once. */
  lemma AfterGroup(current: seq<ProductChange>, start: nat, end: nat, p: ProductState, id: string)
    requires start < end <= |current| && Of(current[..start], current[start].productId) == []
    requires forall pc :: pc in current[start..end] ==> pc.productId == current[start].productId
    ensures After(After(p, Of(current[..start], id)), Of(current[start..end], id)) == After(p, Of(current[..end], id))
  {
    assert current[..end] == current[..start] + current[start..end];
    OfConcat(current[..start], current[start..end], id);
    OfGroup(current[start..end], current[start].productId, id);
    assert Of(current[start..end], id) == [] || Of(current[..start], id) == [];
    AfterJoin(p, Of(current[..start], id), Of(current[start..end], id));
  }

  lemma AfterGroups(current: seq<ProductChange>, start: nat, end: nat, products: map<string, ProductState>)
    requires start < end <= |current| && Of(current[..start], current[start].productId) == []
    requires forall pc :: pc in current[start..end] ==> pc.productId == current[start].productId
    ensures forall id :: id in products ==>
      After(After(products[id], Of(current[..start], id)), Of(current[start..end], id)) == After(products[id], Of(current[..end], id))
  {
    forall id | id in products
      ensures After(After(products[id], Of(current[..start], id)), Of(current[start..end], id)) == After(products[id], Of(current[..end], id))
    {
      AfterGroup(current, start, end, products[id], id);
    }
  }

  lemma AfterJoin(p: ProductState, xs: seq<ProductChange>, ys: seq<ProductChange>)
    requires xs == [] || ys == []
    ensures After(After(p, xs), ys) == After(p, xs + ys)
  {
    assert xs == [] ==> xs + ys == ys;
    assert ys == [] ==> xs + ys == xs;
  }
}
