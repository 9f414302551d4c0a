/** The book as a finite map from cells (side, order id) to quotes, and its refinement by the vectors. */
module MapBooks {
  import opened OrderBooks
  import opened ProductChanges

  datatype Quote = Quote(price: real, size: real)
  datatype Cell = Cell(side: Side, orderId: string)
  type MapBook = map<Cell, Quote>

  function Cells(b: Book): set<Cell> {
    (set i | 0 <= i < |b.bids| :: Cell(Buy, b.bids[i].orderId)) + (set i | 0 <= i < |b.asks| :: Cell(Sell, b.asks[i].orderId))
  }

  /** What a search from the front finds for an id. */
  function Found(orders: seq<Order>, id: string): map<string, Quote> {
    var i := IndexOf(orders, id);
    if i == |orders| then map[] else map[id := Quote(orders[i].price, orders[i].size)]
  }

  function AsMap(b: Book): (m: MapBook)
    ensures forall c :: c in m <==> c.orderId in Found(b.On(c.side), c.orderId)
    ensures forall c :: c in m ==> m[c] == Found(b.On(c.side), c.orderId)[c.orderId]
  {
    map c | c in Cells(b) :: Found(b.On(c.side), c.orderId)[c.orderId]
  }

  ghost predicate Distinct(orders: seq<Order>) {
    forall i, j :: 0 <= i < j < |orders| ==> orders[i].orderId != orders[j].orderId
  }

  ghost predicate DistinctBook(b: Book) {
    Distinct(b.bids) && Distinct(b.asks)
  }

  // The operations on maps. The cell an event acts on keeps the code's side convention.

  function Maker(e: Event): Cell
    requires e.Match?
  {
    Cell(e.side.Opposite(), e.makerOrderId)
  }

  function Taker(e: Event): Cell
    requires e.Match?
  {
    Cell(e.side, e.takerOrderId)
  }

  function Target(e: Event): Cell
    requires !e.Match?
  {
    if e.Open? then Cell(e.side, e.orderId) else Cell(e.side.Opposite(), e.orderId)
  }

  function Less(m: MapBook, c: Cell, amount: real): MapBook {
    if c in m then m[c := m[c].(size := m[c].size - amount)] else m
  }

  function ApplyEventM(m: MapBook, e: Event): MapBook {
    match e
    case Open(_, price, size, _) => m[Target(e) := Quote(price, size)]
    case Done(_, _) => m - {Target(e)}
    case Match(_, _, _, size, _) => if Maker(e) in m then Less(Less(m, Maker(e), size), Taker(e), size) else m
    case Change(_, _, newSize, _) => if Target(e) in m then m[Target(e) := m[Target(e)].(size := newSize)] else m
  }

  function ApplyM(m: MapBook, pc: ProductChange): MapBook
    decreases pc, 1
  {
    match pc
    case Increment(_, _, event) => ApplyEventM(m, event)
    case Reset(_, _, bids, asks, toMerge) => ApplyAllM(AsMap(Book(bids, asks)), toMerge)
  }

  function ApplyAllM(m: MapBook, pcs: seq<ProductChange>): MapBook
    decreases pcs, 0
  {
    if pcs == [] then m else ApplyAllM(ApplyM(m, pcs[0]), pcs[1..])
  }

  // What the changes must satisfy: an opened id is new on its side, a reset's book has distinct ids.

  ghost predicate Fresh(m: MapBook, e: Event) {
    e.Open? ==> Target(e) !in m
  }

  ghost predicate Admissible(m: MapBook, pc: ProductChange)
    decreases pc, 1
  {
    match pc
    case Increment(_, _, event) => Fresh(m, event)
    case Reset(_, _, bids, asks, toMerge) =>
      DistinctBook(Book(bids, asks)) && AdmissibleAll(AsMap(Book(bids, asks)), toMerge)
  }

  ghost predicate AdmissibleAll(m: MapBook, pcs: seq<ProductChange>)
    decreases pcs, 0
  {
    pcs == [] || (Admissible(m, pcs[0]) && AdmissibleAll(ApplyM(m, pcs[0]), pcs[1..]))
  }

  lemma FoundAt(orders: seq<Order>, j: nat)
    requires Distinct(orders) && j < |orders|
    ensures Found(orders, orders[j].orderId) == map[orders[j].orderId := Quote(orders[j].price, orders[j].size)]
  {
    assert IndexOf(orders, orders[j].orderId) == j;
  }

  lemma FoundNone(orders: seq<Order>, x: string)
    requires forall j :: 0 <= j < |orders| ==> orders[j].orderId != x
    ensures Found(orders, x) == map[]
  {}

  lemma DistinctWithout(orders: seq<Order>, i: nat)
    requires Distinct(orders) && i < |orders|
    ensures Distinct(orders[..i] + orders[i + 1..])
  {}

  lemma FoundWithout(orders: seq<Order>, i: nat, x: string)
    requires Distinct(orders) && i < |orders|
    requires x == orders[i].orderId || IndexOf(orders, x) == |orders|
    ensures Found(orders[..i] + orders[i + 1..], x) == map[]
  {
    var rest := orders[..i] + orders[i + 1..];
    assert forall k :: 0 <= k < |rest| ==> rest[k] == orders[if k < i then k else k + 1];
    FoundNone(rest, x);
  }

  lemma FoundShifted(orders: seq<Order>, i: nat, j: nat)
    requires Distinct(orders) && i < |orders| && j < |orders| && i != j
    ensures Found(orders[..i] + orders[i + 1..], orders[j].orderId) == Found(orders, orders[j].orderId)
  {
    var rest, k := orders[..i] + orders[i + 1..], if j < i then j else j - 1;
    assert rest[k] == orders[j];
    DistinctWithout(orders, i);
    FoundAt(rest, k);
    FoundAt(orders, j);
  }

  lemma ErasedAt(orders: seq<Order>, i: nat, x: string)
    requires Distinct(orders) && i < |orders|
    ensures Distinct(orders[..i] + orders[i + 1..])
    ensures Found(orders[..i] + orders[i + 1..], x) == if x == orders[i].orderId then map[] else Found(orders, x)
  {
    DistinctWithout(orders, i);
    var j := IndexOf(orders, x);
    if x == orders[i].orderId || j == |orders| {
      FoundWithout(orders, i, x);
    } else {
      FoundShifted(orders, i, j);
    }
  }

  lemma Erased(orders: seq<Order>, id: string, x: string)
    requires Distinct(orders)
    ensures Distinct(Erase(orders, id))
    ensures Found(Erase(orders, id), x) == if x == id then map[] else Found(orders, x)
  {
    var i := IndexOf(orders, id);
    if i < |orders| {
      ErasedAt(orders, i, x);
    }
  }

  lemma Resized(orders: seq<Order>, id: string, size: real, x: string)
    ensures Distinct(orders) ==> Distinct(Resize(orders, id, size))
    ensures Found(Resize(orders, id, size), x)
         == if x == id && id in Found(orders, id) then map[id := Found(orders, id)[id].(size := size)] else Found(orders, x)
  {
    var after := Resize(orders, id, size);
    assert |after| == |orders| && forall k :: 0 <= k < |orders| ==> after[k].orderId == orders[k].orderId;
    assert IndexOf(after, x) == IndexOf(orders, x);
  }

  lemma Debited(orders: seq<Order>, id: string, amount: real, x: string)
    ensures Distinct(orders) ==> Distinct(Debit(orders, id, amount))
    ensures Found(Debit(orders, id, amount), x)
         == if x == id && id in Found(orders, id) then map[id := Found(orders, id)[id].(size := Found(orders, id)[id].size - amount)]
            else Found(orders, x)
  {
    var i := IndexOf(orders, id);
    if i < |orders| {
      assert Debit(orders, id, amount) == Resize(orders, id, orders[i].size - amount);
      Resized(orders, id, orders[i].size - amount, x);
    }
  }

  lemma Appended(orders: seq<Order>, o: Order, x: string)
    requires o.orderId !in Found(orders, o.orderId)
    ensures Distinct(orders) ==> Distinct(orders + [o])
    ensures Found(orders + [o], x) == if x == o.orderId then map[x := Quote(o.price, o.size)] else Found(orders, x)
  {
    var longer := orders + [o];
    assert forall k :: 0 <= k < |orders| ==> longer[k] == orders[k] && longer[|orders|] == o;
    assert IndexOf(orders, o.orderId) == |orders|;
    var i, j := IndexOf(longer, x), IndexOf(orders, x);
    assert j < |orders| ==> longer[j].orderId == x;
    assert i < |orders| ==> orders[i].orderId == x;
  }

  /** What the map view of a book holds in a cell. */
  function Seen(b: Book, c: Cell): map<string, Quote> {
    Found(b.On(c.side), c.orderId)
  }

  /** What a cell holds after an event, from what it held before and whether the maker was there. */
  function SeenAfter(q: map<string, Quote>, makerThere: bool, e: Event, c: Cell): map<string, Quote> {
    match e
    case Open(id, price, size, _) => if c == Target(e) then map[id := Quote(price, size)] else q
    case Done(_, _) => if c == Target(e) then map[] else q
    case Change(id, _, newSize, _) => if c == Target(e) && id in q then map[id := q[id].(size := newSize)] else q
    case Match(_, _, _, size, _) =>
      if makerThere && (c == Maker(e) || c == Taker(e)) && c.orderId in q
      then map[c.orderId := q[c.orderId].(size := q[c.orderId].size - size)]
      else q
  }

  predicate MakerThere(b: Book, e: Event) {
    e.Match? && e.makerOrderId in Seen(b, Maker(e))
  }

  lemma VectorsSee(b: Book, e: Event, c: Cell)
    requires DistinctBook(b)
    requires e.Open? ==> e.orderId !in Found(b.On(e.side), e.orderId)
    ensures DistinctBook(ApplyEvent(b, e))
    ensures Seen(ApplyEvent(b, e), c) == SeenAfter(Seen(b, c), MakerThere(b, e), e, c)
  {
    match e
    case Open(_, _, _, _) => VectorsSeeOpen(b, e, c);
    case Match(_, _, _, _, _) => VectorsSeeMatch(b, e, c);
    case _ => VectorsSeeEdit(b, e, c);
  }

  lemma VectorsSeeOpen(b: Book, e: Event, c: Cell)
    requires e.Open? && DistinctBook(b) && e.orderId !in Found(b.On(e.side), e.orderId)
    ensures DistinctBook(ApplyEvent(b, e))
    ensures Seen(ApplyEvent(b, e), c) == SeenAfter(Seen(b, c), false, e, c)
  {
    var orders, o := b.On(e.side), Order(e.price, e.remainingSize, e.orderId);
    Appended(orders, o, c.orderId);
    assert ApplyEvent(b, e).On(e.side) == orders + [o];
    assert ApplyEvent(b, e).On(e.side.Opposite()) == b.On(e.side.Opposite());
  }

  lemma VectorsSeeEdit(b: Book, e: Event, c: Cell)
    requires (e.Done? || e.Change?) && DistinctBook(b)
    ensures DistinctBook(ApplyEvent(b, e))
    ensures Seen(ApplyEvent(b, e), c) == SeenAfter(Seen(b, c), false, e, c)
  {
    var orders := b.On(e.side.Opposite());
    assert ApplyEvent(b, e).On(e.side) == b.On(e.side);
    if e.Done? {
      Erased(orders, e.orderId, c.orderId);
      assert ApplyEvent(b, e).On(e.side.Opposite()) == Erase(orders, e.orderId);
    } else {
      Resized(orders, e.orderId, e.newSize, c.orderId);
      assert ApplyEvent(b, e).On(e.side.Opposite()) == Resize(orders, e.orderId, e.newSize);
    }
  }

  lemma VectorsSeeMatch(b: Book, e: Event, c: Cell)
    requires e.Match? && DistinctBook(b)
    ensures DistinctBook(ApplyEvent(b, e))
    ensures Seen(ApplyEvent(b, e), c) == SeenAfter(Seen(b, c), MakerThere(b, e), e, c)
  {
    var makers, takers := b.On(e.side.Opposite()), b.On(e.side);
    if e.makerOrderId in Found(makers, e.makerOrderId) {
      var after := ApplyEvent(b, e);
      assert after.On(e.side) == Debit(takers, e.takerOrderId, e.size);
      assert after.On(e.side.Opposite()) == Debit(makers, e.makerOrderId, e.size);
      Debited(makers, e.makerOrderId, e.size, c.orderId);
      Debited(takers, e.takerOrderId, e.size, c.orderId);
      if c.side == e.side {
        assert Seen(after, c) == Found(after.On(e.side), c.orderId);
      } else {
        assert c.side == e.side.Opposite();
        assert Seen(after, c) == Found(after.On(e.side.Opposite()), c.orderId);
      }
    } else {
      assert ApplyEvent(b, e) == b;
    }
  }

  /** m holds exactly what a search of the vectors of b finds. */
  ghost predicate Views(m: MapBook, b: Book) {
    && (forall c :: c in m <==> c.orderId in Seen(b, c))
    && (forall c :: c in m ==> m[c] == Seen(b, c)[c.orderId])
  }

  lemma ViewsIsAsMap(m: MapBook, b: Book)
    ensures Views(AsMap(b), b)
    ensures Views(m, b) ==> m == AsMap(b)
  {
    var v := AsMap(b);
    if Views(m, b) {
      assert forall c :: c in m <==> c in v;
      assert forall c :: c in m ==> m[c] == v[c];
    }
  }

  lemma MapsSee(m: MapBook, e: Event, c: Cell, q: map<string, Quote>, makerThere: bool)
    requires (c in m <==> c.orderId in q) && (c in m ==> m[c] == q[c.orderId])
    requires e.Match? ==> (Maker(e) in m <==> makerThere)
    ensures c in ApplyEventM(m, e) <==> c.orderId in SeenAfter(q, makerThere, e, c)
    ensures c in ApplyEventM(m, e) ==> ApplyEventM(m, e)[c] == SeenAfter(q, makerThere, e, c)[c.orderId]
  {
    if e.Match? {
      assert Maker(e) != Taker(e);
    }
  }

  /** One event on the vectors is the same event on the maps, and ids stay distinct. */
  lemma EventRefines(b: Book, e: Event)
    requires DistinctBook(b) && Fresh(AsMap(b), e)
    ensures DistinctBook(ApplyEvent(b, e))
    ensures AsMap(ApplyEvent(b, e)) == ApplyEventM(AsMap(b), e)
  {
    assert e.Open? ==> Target(e) !in AsMap(b);
    VectorsSee(b, e, Cell(Buy, ""));
    ViewsIsAsMap(map[], b);
    ViewsAfter(AsMap(b), b, ApplyEvent(b, e), e);
    ViewsIsAsMap(ApplyEventM(AsMap(b), e), ApplyEvent(b, e));
  }

  lemma ViewsAfter(m: MapBook, b: Book, after: Book, e: Event)
    requires DistinctBook(b) && Views(m, b) && after == ApplyEvent(b, e)
    requires e.Open? ==> e.orderId !in Found(b.On(e.side), e.orderId)
    ensures Views(ApplyEventM(m, e), after)
  {
    forall c: Cell
      ensures c in ApplyEventM(m, e) <==> c.orderId in Seen(after, c)
      ensures c in ApplyEventM(m, e) ==> ApplyEventM(m, e)[c] == Seen(after, c)[c.orderId]
    {
      VectorsSee(b, e, c);
      assert e.Match? ==> (Maker(e) in m <==> MakerThere(b, e));
      MapsSee(m, e, c, Seen(b, c), MakerThere(b, e));
    }
  }

  /** A single reset or increment, on vectors and on maps. */
  lemma {:induction false} ChangeRefines(b: Book, pc: ProductChange)
    requires DistinctBook(b) && Admissible(AsMap(b), pc)
    ensures DistinctBook(Apply(b, pc))
    ensures AsMap(Apply(b, pc)) == ApplyM(AsMap(b), pc)
    decreases pc, 1
  {
    match pc
    case Increment(_, _, event) => EventRefines(b, event);
    case Reset(_, _, bids, asks, toMerge) => ChangesRefine(Book(bids, asks), toMerge);
  }

  /** Replaying any admissible list of changes, resets included, commutes with the map view. */
  lemma {:induction false} ChangesRefine(b: Book, pcs: seq<ProductChange>)
    requires DistinctBook(b) && AdmissibleAll(AsMap(b), pcs)
    ensures DistinctBook(ApplyAll(b, pcs))
    ensures AsMap(ApplyAll(b, pcs)) == ApplyAllM(AsMap(b), pcs)
    decreases pcs, 0
  {
    if pcs != [] {
      ChangeRefines(b, pcs[0]);
      ChangesRefine(Apply(b, pcs[0]), pcs[1..]);
    }
  }

  /** The orders whose id is not among these, in their order. */
  function Others(orders: seq<Order>, ids: set<string>): seq<Order> {
    if orders == [] then []
    else (if orders[0].orderId in ids then [] else [orders[0]]) + Others(orders[1..], ids)
  }

  /** The cells an event may touch. */
  function Footprint(e: Event): set<Cell> {
    if e.Match? then {Maker(e), Taker(e)} else {Target(e)}
  }

  lemma {:induction false} OthersConcat(xs: seq<Order>, ys: seq<Order>, ids: set<string>)
    ensures Others(xs + ys, ids) == Others(xs, ids) + Others(ys, ids)
  {
    if xs == [] {
      assert xs + ys == ys;
    } else {
      assert (xs + ys)[1..] == xs[1..] + ys;
      OthersConcat(xs[1..], ys, ids);
    }
  }

  lemma OthersSkip(orders: seq<Order>, i: nat, mid: seq<Order>, ids: set<string>)
    requires i < |orders| && orders[i].orderId in ids
    requires mid == [] || (|mid| == 1 && mid[0].orderId in ids)
    ensures Others(orders[..i] + mid + orders[i + 1..], ids) == Others(orders, ids)
  {
    assert orders == orders[..i] + [orders[i]] + orders[i + 1..];
    OthersConcat(orders[..i] + [orders[i]], orders[i + 1..], ids);
    OthersConcat(orders[..i], [orders[i]], ids);
    OthersConcat(orders[..i] + mid, orders[i + 1..], ids);
    OthersConcat(orders[..i], mid, ids);
  }

  lemma OthersUnderErase(orders: seq<Order>, id: string, ids: set<string>)
    requires id in ids
    ensures Others(Erase(orders, id), ids) == Others(orders, ids)
  {
    var i := IndexOf(orders, id);
    if i < |orders| {
      OthersSkip(orders, i, [], ids);
      assert orders[..i] + [] + orders[i + 1..] == Erase(orders, id);
    }
  }

  lemma OthersUnderResize(orders: seq<Order>, id: string, size: real, ids: set<string>)
    requires id in ids
    ensures Others(Resize(orders, id, size), ids) == Others(orders, ids)
  {
    var i := IndexOf(orders, id);
    if i < |orders| {
      var resized := orders[i].(size := size);
      OthersSkip(orders, i, [resized], ids);
      assert orders[..i] + [resized] + orders[i + 1..] == Resize(orders, id, size);
    }
  }

  lemma OthersUnderDebit(orders: seq<Order>, id: string, amount: real, ids: set<string>)
    requires id in ids
    ensures Others(Debit(orders, id, amount), ids) == Others(orders, ids)
  {
    var i := IndexOf(orders, id);
    if i < |orders| {
      assert Debit(orders, id, amount) == Resize(orders, id, orders[i].size - amount);
      OthersUnderResize(orders, id, orders[i].size - amount, ids);
    }
  }

  /** On any book, duplicates or not, an event leaves the orders outside its footprint untouched
      and in the same relative positions, on both sides. */
  lemma EventKeepsOthers(b: Book, e: Event, side: Side, ids: set<string>)
    requires forall c :: c in Footprint(e) && c.side == side ==> c.orderId in ids
    ensures Others(ApplyEvent(b, e).On(side), ids) == Others(b.On(side), ids)
  {
    match e
    case Open(id, price, size, s) =>
      if s == side {
        assert Target(e) in Footprint(e);
        OthersConcat(b.On(side), [Order(price, size, id)], ids);
      }
    case Done(id, s) =>
      if s.Opposite() == side {
        assert Target(e) in Footprint(e);
        OthersUnderErase(b.On(side), id, ids);
      }
    case Change(id, _, newSize, s) =>
      if s.Opposite() == side {
        assert Target(e) in Footprint(e);
        OthersUnderResize(b.On(side), id, newSize, ids);
      }
    case Match(maker, taker, _, size, s) =>
      assert Maker(e) in Footprint(e) && Taker(e) in Footprint(e);
      OthersUnderDebit(b.On(side), if s == side then taker else maker, size, ids);
  }

  /** Removing an order of an id that is new on its side undoes adding it exactly when the two calls name different sides. */
  lemma RemoveUndoesAddIff(b: Book, o: Order, added: Side, removed: Side)
    requires Cell(added, o.orderId) !in AsMap(b)
    ensures Remove(Add(b, o, added), o.orderId, removed) == b <==> added != removed
  {
    var orders, longer := b.On(added), b.On(added) + [o];
    AppendErase(orders, o);
    assert added == removed ==> Remove(Add(b, o, added), o.orderId, removed).On(added) == longer;
  }

  lemma AppendErase(orders: seq<Order>, o: Order)
    requires o.orderId !in Found(orders, o.orderId)
    ensures orders != orders + [o] && Erase(orders + [o], o.orderId) == orders
  {
    Appended(orders, o, o.orderId);
    assert |orders + [o]| == |orders| + 1;
    assert forall k :: 0 <= k < |orders| ==> (orders + [o])[k] == orders[k];
  }
}
