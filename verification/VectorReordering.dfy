/** Reordering on the vectors themselves, on any book, ids listed twice or more included: which changes
    may trade places with the orders of every id left the same, in the same relative order. */
module VectorReordering {
  import opened OrderBooks
  import opened ProductChanges
  import opened MapBooks
  import Reordering

  /** The orders with this id, in their order. */
  function Only(orders: seq<Order>, id: string): seq<Order> {
    if orders == [] then [] else (if orders[0].orderId == id then [orders[0]] else []) + Only(orders[1..], id)
  }

  function Pile(b: Book, c: Cell): seq<Order> {
    Only(b.On(c.side), c.orderId)
  }

  /** Two books list the same orders under each id on each side, in the same relative order. */
  ghost predicate SameOrders(b: Book, b': Book) {
    forall c :: Pile(b, c) == Pile(b', c)
  }

  lemma {:induction false} OnlyConcat(xs: seq<Order>, ys: seq<Order>, id: string)
    ensures Only(xs + ys, id) == Only(xs, id) + Only(ys, id)
    decreases xs
  {
    if xs == [] {
      assert xs + ys == ys;
    } else {
      assert (xs + ys)[1..] == xs[1..] + ys;
      OnlyConcat(xs[1..], ys, id);
    }
  }

  lemma OnlyOne(o: Order, id: string)
    ensures Only([o], id) == if o.orderId == id then [o] else []
  {
    assert [o][1..] == [];
  }

  lemma {:induction false} OnlyNone(orders: seq<Order>, id: string)
    requires forall j :: 0 <= j < |orders| ==> orders[j].orderId != id
    ensures Only(orders, id) == []
  {
    if orders != [] {
      OnlyNone(orders[1..], id);
    }
  }

  /** The pile of an id, seen from the first order of some id. */
  lemma OnlyAt(orders: seq<Order>, id: string, x: string)
    requires IndexOf(orders, id) < |orders|
    ensures var i := IndexOf(orders, id);
      && Only(orders[..i], id) == []
      && Only(orders, x) == Only(orders[..i], x) + (if x == id then [orders[i]] else []) + Only(orders[i + 1..], x)
  {
    var i := IndexOf(orders, id);
    assert orders == orders[..i] + [orders[i]] + orders[i + 1..];
    OnlyConcat(orders[..i] + [orders[i]], orders[i + 1..], x);
    OnlyConcat(orders[..i], [orders[i]], x);
    OnlyOne(orders[i], x);
    OnlyNone(orders[..i], id);
  }

  lemma OnlyEmptyIff(orders: seq<Order>, id: string)
    ensures Only(orders, id) == [] <==> IndexOf(orders, id) == |orders|
  {
    if IndexOf(orders, id) < |orders| {
      OnlyAt(orders, id, id);
    } else {
      OnlyNone(orders, id);
    }
  }

  // The edits on the first order of a pile.

  function Popped(q: seq<Order>): seq<Order> { if q == [] then q else q[1..] }
  function Sized(q: seq<Order>, size: real): seq<Order> { if q == [] then q else [q[0].(size := size)] + q[1..] }
  function Charged(q: seq<Order>, amount: real): seq<Order> { if q == [] then q else Sized(q, q[0].size - amount) }

  lemma OnlyErase(orders: seq<Order>, id: string, x: string)
    ensures Only(Erase(orders, id), x) == if x == id then Popped(Only(orders, x)) else Only(orders, x)
  {
    var i := IndexOf(orders, id);
    OnlyEmptyIff(orders, id);
    if i < |orders| {
      OnlyAt(orders, id, x);
      OnlyConcat(orders[..i], orders[i + 1..], x);
    }
  }

  lemma OnlyResize(orders: seq<Order>, id: string, size: real, x: string)
    ensures Only(Resize(orders, id, size), x) == if x == id then Sized(Only(orders, x), size) else Only(orders, x)
  {
    var i := IndexOf(orders, id);
    OnlyEmptyIff(orders, id);
    if i < |orders| {
      var o := orders[i].(size := size);
      OnlyAt(orders, id, x);
      assert Resize(orders, id, size) == orders[..i] + [o] + orders[i + 1..];
      OnlyConcat(orders[..i] + [o], orders[i + 1..], x);
      OnlyConcat(orders[..i], [o], x);
      OnlyOne(o, x);
    }
  }

  lemma OnlyDebit(orders: seq<Order>, id: string, amount: real, x: string)
    ensures Only(Debit(orders, id, amount), x) == if x == id then Charged(Only(orders, x), amount) else Only(orders, x)
  {
    var i := IndexOf(orders, id);
    OnlyEmptyIff(orders, id);
    if i < |orders| {
      OnlyAt(orders, id, id);
      assert Only(orders, id)[0] == orders[i];
      assert Debit(orders, id, amount) == Resize(orders, id, orders[i].size - amount);
      OnlyResize(orders, id, orders[i].size - amount, x);
    }
  }

  /** What becomes of a pile under an event. */
  function PileAfter(q: seq<Order>, makerThere: bool, e: Event, c: Cell): seq<Order> {
    match e
    case Open(id, price, size, _) => if c == Target(e) then q + [Order(price, size, id)] else q
    case Done(_, _) => if c == Target(e) then Popped(q) else q
    case Change(_, _, newSize, _) => if c == Target(e) then Sized(q, newSize) else q
    case Match(_, _, _, size, _) => if makerThere && (c == Maker(e) || c == Taker(e)) then Charged(q, size) else q
  }

  predicate MakerIn(b: Book, e: Event) {
    e.Match? && Pile(b, Maker(e)) != []
  }

  /** Every event, on any book, acts on each pile by itself, but for the test of the maker. */
  lemma EventOnPile(b: Book, e: Event, c: Cell)
    ensures Pile(ApplyEvent(b, e), c) == PileAfter(Pile(b, c), MakerIn(b, e), e, c)
  {
    match e
    case Open(id, price, size, s) =>
      if c.side == s {
        OnlyConcat(b.On(s), [Order(price, size, id)], c.orderId);
        OnlyOne(Order(price, size, id), c.orderId);
      }
    case Done(id, s) => OnlyErase(b.On(c.side), id, c.orderId);
    case Change(id, _, newSize, s) => OnlyResize(b.On(c.side), id, newSize, c.orderId);
    case Match(maker, taker, _, size, s) =>
      OnlyEmptyIff(b.On(s.Opposite()), maker);
      OnlyDebit(b.On(c.side), if c.side == s then taker else maker, size, c.orderId);
  }

  /** The same events on books that list the same orders. */
  lemma EventKeepsSame(b: Book, b': Book, e: Event)
    requires SameOrders(b, b')
    ensures SameOrders(ApplyEvent(b, e), ApplyEvent(b', e))
  {
    forall c ensures Pile(ApplyEvent(b, e), c) == Pile(ApplyEvent(b', e), c) {
      EventOnPile(b, e, c);
      EventOnPile(b', e, c);
    }
  }

  // Two events.

  /** Two events of which each leaves alone what the other acts on, or that edit the same first order
      in a way that does not depend on their order. */
  predicate Independent(d: Event, e: Event) {
    if d.Match? && e.Match? then true
    else if d.Match? then d.size == 0.0 || Target(e) !in Footprint(d)
    else if e.Match? then e.size == 0.0 || Target(d) !in Footprint(e)
    else Target(d) != Target(e) || SameTarget(d, e)
  }

  predicate SameTarget(d: Event, e: Event)
    requires !d.Match? && !e.Match?
  {
    match (d, e)
    case (Open(_, p, s, _), Open(_, q, t, _)) => p == q && s == t
    case (Open(_, _, s, _), Change(_, _, t, _)) => s == t
    case (Change(_, _, s, _), Open(_, _, t, _)) => s == t
    case (Change(_, _, s, _), Change(_, _, t, _)) => s == t
    case (Done(_, _), Done(_, _)) => true
    case _ => false
  }

  function Twice(b: Book, d: Event, e: Event): Book {
    ApplyEvent(ApplyEvent(b, d), e)
  }

  /** The maker of e is found after d. */
  predicate MakerInAfter(b: Book, d: Event, e: Event) {
    e.Match? && PileAfter(Pile(b, Maker(e)), MakerIn(b, d), d, Maker(e)) != []
  }

  lemma TwiceOnPile(b: Book, d: Event, e: Event, c: Cell)
    ensures Pile(Twice(b, d, e), c) == PileAfter(PileAfter(Pile(b, c), MakerIn(b, d), d, c), MakerInAfter(b, d, e), e, c)
  {
    EventOnPile(ApplyEvent(b, d), e, c);
    EventOnPile(b, d, c);
    if e.Match? {
      EventOnPile(b, d, Maker(e));
    }
  }

  lemma ChargedTwice(q: seq<Order>, x: real, y: real)
    ensures Charged(Charged(q, x), y) == Charged(Charged(q, y), x)
    ensures Charged(q, 0.0) == q
  {
    if q != [] {
      assert Charged(q, x)[1..] == q[1..] && Charged(q, y)[1..] == q[1..];
      assert Charged(q, 0.0) == [q[0]] + q[1..] == q;
    }
  }

  /** The maker of a match is found in both orders, or in none, unless the match moves nothing. */
  lemma MakerStays(b: Book, d: Event, e: Event)
    requires e.Match? && Independent(d, e) && (d.Match? || e.size != 0.0)
    ensures MakerInAfter(b, d, e) == MakerIn(b, e)
  {}

  /** Two edits of one pile, apart from what they ask about others. */
  lemma EditsTradePlaces(q: seq<Order>, d: Event, e: Event, c: Cell)
    requires !d.Match? && !e.Match? && Independent(d, e)
    ensures PileAfter(PileAfter(q, false, d, c), false, e, c) == PileAfter(PileAfter(q, false, e, c), false, d, c)
  {
    if c == Target(d) == Target(e) {
      SameTargetTradePlaces(q, d, e, c);
    }
  }

  lemma SameTargetTradePlaces(q: seq<Order>, d: Event, e: Event, c: Cell)
    requires !d.Match? && !e.Match? && SameTarget(d, e) && c == Target(d) == Target(e)
    ensures PileAfter(PileAfter(q, false, d, c), false, e, c) == PileAfter(PileAfter(q, false, e, c), false, d, c)
  {
    if d.Open? && e.Change? {
      OpenThenChange(q, d, e);
    } else if d.Change? && e.Open? {
      OpenThenChange(q, e, d);
    }
  }

  lemma OpenThenChange(q: seq<Order>, d: Event, e: Event)
    requires d.Open? && e.Change? && d.remainingSize == e.newSize
    ensures var o := Order(d.price, d.remainingSize, d.orderId); Sized(q + [o], e.newSize) == Sized(q, e.newSize) + [o]
  {
    var o := Order(d.price, d.remainingSize, d.orderId);
    if q != [] {
      assert (q + [o])[0] == q[0] && (q + [o])[1..] == q[1..] + [o];
    } else {
      assert q + [o] == [o] && [o][1..] == [];
    }
  }

  lemma MatchAndEdit(b: Book, d: Event, e: Event, c: Cell)
    requires d.Match? && !e.Match? && Independent(d, e)
    ensures Pile(Twice(b, d, e), c) == Pile(Twice(b, e, d), c)
  {
    var q := Pile(b, c);
    TwiceOnPile(b, d, e, c);
    TwiceOnPile(b, e, d, c);
    if d.size == 0.0 {
      ChargedTwice(q, 0.0, 0.0);
      ChargedTwice(PileAfter(q, false, e, c), 0.0, 0.0);
    } else {
      MakerStays(b, e, d);
      assert c == Target(e) ==> c != Maker(d) && c != Taker(d);
    }
  }

  lemma Matches(b: Book, d: Event, e: Event, c: Cell)
    requires d.Match? && e.Match?
    ensures Pile(Twice(b, d, e), c) == Pile(Twice(b, e, d), c)
  {
    TwiceOnPile(b, d, e, c);
    TwiceOnPile(b, e, d, c);
    MakerStays(b, d, e);
    MakerStays(b, e, d);
    ChargedTwice(Pile(b, c), d.size, e.size);
  }

  lemma IndependentTradePlaces(b: Book, d: Event, e: Event)
    requires Independent(d, e)
    ensures SameOrders(Twice(b, d, e), Twice(b, e, d))
  {
    forall c ensures Pile(Twice(b, d, e), c) == Pile(Twice(b, e, d), c) {
      if d.Match? && e.Match? {
        Matches(b, d, e, c);
      } else if d.Match? {
        MatchAndEdit(b, d, e, c);
      } else if e.Match? {
        MatchAndEdit(b, e, d, c);
      } else {
        TwiceOnPile(b, d, e, c);
        TwiceOnPile(b, e, d, c);
        EditsTradePlaces(Pile(b, c), d, e, c);
      }
    }
  }

  function Zero(id: string): Order { Order(0.0, 0.0, id) }

  /** A book on which two events that are not independent leave different orders. */
  function Witness(d: Event, e: Event): Book {
    if d.Match? then MatchWitness(d, e)
    else if e.Match? then MatchWitness(e, d)
    else EmptyBook.With(Target(d).side, EditWitness(d, e))
  }

  function MatchWitness(d: Event, e: Event): Book
    requires d.Match?
  {
    var makers := if !e.Match? && e.Open? && Target(e) == Maker(d) then [] else [Zero(d.makerOrderId)];
    var takers := if e.Open? then [] else [Zero(d.takerOrderId), Zero(d.takerOrderId)];
    EmptyBook.With(d.side.Opposite(), makers).With(d.side, takers)
  }

  function EditWitness(d: Event, e: Event): seq<Order>
    requires !d.Match? && !e.Match?
  {
    var other := 1.0 + if d.Change? then d.newSize else if e.Change? then e.newSize else 0.0;
    if d.Open? || e.Open? then [] else [Zero(d.orderId), Order(0.0, other, d.orderId)]
  }

  lemma OnlyTwo(o: Order, o': Order, id: string)
    requires o.orderId == o'.orderId == id
    ensures Only([o, o'], id) == [o, o']
  {
    assert [o, o'][1..] == [o'];
    OnlyOne(o', id);
  }

  lemma MatchWitnessPiles(d: Event, e: Event)
    requires d.Match? && !e.Match?
    ensures Pile(MatchWitness(d, e), Maker(d)) == if e.Open? && Target(e) == Maker(d) then [] else [Zero(d.makerOrderId)]
    ensures Pile(MatchWitness(d, e), Taker(d)) == if e.Open? then [] else [Zero(d.takerOrderId), Zero(d.takerOrderId)]
  {
    OnlyOne(Zero(d.makerOrderId), d.makerOrderId);
    OnlyTwo(Zero(d.takerOrderId), Zero(d.takerOrderId), d.takerOrderId);
  }

  /** The two orders, on the pile c of a book with the maker's pile q and the pile p of c. */
  lemma MatchAndEditPiles(b: Book, d: Event, e: Event, c: Cell, p: seq<Order>, q: seq<Order>)
    requires d.Match? && !e.Match? && p == Pile(b, c) && q == Pile(b, Maker(d))
    ensures Pile(Twice(b, d, e), c) == PileAfter(PileAfter(p, q != [], d, c), false, e, c)
    ensures Pile(Twice(b, e, d), c) == PileAfter(PileAfter(p, false, e, c), PileAfter(q, false, e, Maker(d)) != [], d, c)
  {
    TwiceOnPile(b, d, e, c);
    TwiceOnPile(b, e, d, c);
  }

  lemma MatchDiffersFromDone(d: Event, e: Event)
    requires d.Match? && e.Done? && !Independent(d, e)
    ensures Pile(Twice(MatchWitness(d, e), d, e), Taker(d)) != Pile(Twice(MatchWitness(d, e), e, d), Taker(d))
  {
    var z := Zero(d.takerOrderId);
    MatchWitnessPiles(d, e);
    MatchAndEditPiles(MatchWitness(d, e), d, e, Taker(d), [z, z], [Zero(d.makerOrderId)]);
    var charged := Charged([z, z], d.size);
    assert charged[0].size == -d.size && charged[1] == z;
    if Target(e) == Taker(d) {
      assert Popped([z, z]) == [z] && Charged([z], d.size)[0].size == -d.size;
    }
  }

  lemma MatchDiffersFromOpen(d: Event, e: Event)
    requires d.Match? && e.Open? && !Independent(d, e)
    ensures Pile(Twice(MatchWitness(d, e), d, e), Target(e)) != Pile(Twice(MatchWitness(d, e), e, d), Target(e))
  {
    var makers := if Target(e) == Maker(d) then [] else [Zero(d.makerOrderId)];
    var o := Order(e.price, e.remainingSize, e.orderId);
    MatchWitnessPiles(d, e);
    MatchAndEditPiles(MatchWitness(d, e), d, e, Target(e), [], makers);
    assert [] + [o] == [o] && Charged([o], d.size)[0].size == o.size - d.size;
  }

  lemma MatchDiffersFromChange(d: Event, e: Event)
    requires d.Match? && e.Change? && !Independent(d, e)
    ensures Pile(Twice(MatchWitness(d, e), d, e), Target(e)) != Pile(Twice(MatchWitness(d, e), e, d), Target(e))
  {
    var makers := [Zero(d.makerOrderId)];
    var p := if Target(e) == Maker(d) then makers else [Zero(d.takerOrderId), Zero(d.takerOrderId)];
    MatchWitnessPiles(d, e);
    MatchAndEditPiles(MatchWitness(d, e), d, e, Target(e), p, makers);
    assert Sized(p, e.newSize)[0].size == e.newSize && Charged(Sized(p, e.newSize), d.size)[0].size == e.newSize - d.size;
    assert Sized(Charged(p, d.size), e.newSize)[0].size == e.newSize;
  }

  lemma MatchDiffers(d: Event, e: Event)
    requires d.Match? && !e.Match? && !Independent(d, e)
    ensures !SameOrders(Twice(MatchWitness(d, e), d, e), Twice(MatchWitness(d, e), e, d))
  {
    match e
    case Open(_, _, _, _) => MatchDiffersFromOpen(d, e);
    case Done(_, _) => MatchDiffersFromDone(d, e);
    case Change(_, _, _, _) => MatchDiffersFromChange(d, e);
  }

  lemma EditsDiffer(d: Event, e: Event)
    requires !d.Match? && !e.Match? && !Independent(d, e)
    ensures !SameOrders(Twice(Witness(d, e), d, e), Twice(Witness(d, e), e, d))
  {
    var b, c := Witness(d, e), Target(d);
    if !d.Open? && !e.Open? {
      var q := EditWitness(d, e);
      OnlyTwo(q[0], q[1], d.orderId);
    }
    TwiceOnPile(b, d, e, c);
    TwiceOnPile(b, e, d, c);
    assert Pile(Twice(b, d, e), c) != Pile(Twice(b, e, d), c);
  }

  lemma SameOrdersBack(b: Book, b': Book)
    requires SameOrders(b, b')
    ensures SameOrders(b', b)
  {}

  /** Two events may trade places on every book, however often it lists an id, exactly when they are
      independent. */
  lemma IndependentIff(d: Event, e: Event)
    ensures (forall b :: SameOrders(Twice(b, d, e), Twice(b, e, d))) <==> Independent(d, e)
  {
    if Independent(d, e) {
      forall b ensures SameOrders(Twice(b, d, e), Twice(b, e, d)) { IndependentTradePlaces(b, d, e); }
    } else if d.Match? {
      MatchDiffers(d, e);
    } else if e.Match? {
      MatchDiffers(e, d);
      var b := MatchWitness(e, d);
      if SameOrders(Twice(b, d, e), Twice(b, e, d)) {
        SameOrdersBack(Twice(b, d, e), Twice(b, e, d));
      }
    } else {
      EditsDiffer(d, e);
    }
  }

  // Changes, full order books included, and batches.

  /** The event changes nothing on this book. */
  predicate IdleOn(b: Book, e: Event) {
    match e
    case Open(_, _, _, _) => false
    case Done(_, _) => Pile(b, Target(e)) == []
    case Change(_, _, newSize, _) => Pile(b, Target(e)) == [] || Pile(b, Target(e))[0].size == newSize
    case Match(_, _, _, size, _) => Pile(b, Maker(e)) == [] || size == 0.0
  }

  lemma IdleOnIff(b: Book, e: Event)
    ensures SameOrders(ApplyEvent(b, e), b) <==> IdleOn(b, e)
  {
    var c := if e.Match? then Maker(e) else Target(e);
    EventOnPile(b, e, c);
    if IdleOn(b, e) {
      forall c' ensures Pile(ApplyEvent(b, e), c') == Pile(b, c') {
        EventOnPile(b, e, c');
        ChargedTwice(Pile(b, c'), 0.0, 0.0);
      }
    } else if e.Done? || e.Open? {
      assert |Pile(ApplyEvent(b, e), c)| != |Pile(b, c)|;
    } else {
      assert Pile(ApplyEvent(b, e), c)[0].size != Pile(b, c)[0].size;
    }
  }

  /** The book that a full order book leaves, whatever was there before. */
  function LeftBook(pc: ProductChange): Book
    requires pc.Reset?
  {
    Apply(EmptyBook, pc)
  }

  ghost predicate IndependentChanges(d: ProductChange, e: ProductChange) {
    match (d, e)
    case (Increment(_, _, ev), Increment(_, _, ev')) => Independent(ev, ev')
    case (Reset(_, _, _, _, _), Increment(_, _, ev)) => IdleOn(LeftBook(d), ev)
    case (Increment(_, _, ev), Reset(_, _, _, _, _)) => IdleOn(LeftBook(e), ev)
    case _ => SameOrders(LeftBook(d), LeftBook(e))
  }

  ghost predicate TradePlaces(b: Book, d: ProductChange, e: ProductChange) {
    SameOrders(Apply(Apply(b, d), e), Apply(Apply(b, e), d))
  }

  lemma ResetTradesPlacesIff(b: Book, d: ProductChange, e: ProductChange)
    requires d.Reset? || e.Reset?
    ensures TradePlaces(b, d, e) <==> IndependentChanges(d, e)
  {
    if d.Reset? && e.Increment? {
      IdleOnIff(LeftBook(d), e.event);
    } else if d.Increment? {
      var left := LeftBook(e);
      IdleOnIff(left, d.event);
      assert SameOrders(left, ApplyEvent(left, d.event)) <==> SameOrders(ApplyEvent(left, d.event), left);
    } else {
      assert SameOrders(LeftBook(d), LeftBook(e)) <==> SameOrders(LeftBook(e), LeftBook(d));
    }
  }

  /** The same for any two changes. */
  lemma TradePlacesIff(d: ProductChange, e: ProductChange)
    ensures (forall b :: TradePlaces(b, d, e)) <==> IndependentChanges(d, e)
  {
    if d.Increment? && e.Increment? {
      IndependentIff(d.event, e.event);
      assert forall b :: TradePlaces(b, d, e) <==> SameOrders(Twice(b, d.event, e.event), Twice(b, e.event, d.event));
    } else {
      forall b ensures TradePlaces(b, d, e) <==> IndependentChanges(d, e) { ResetTradesPlacesIff(b, d, e); }
      assert TradePlaces(EmptyBook, d, e) <==> IndependentChanges(d, e);
    }
  }

  ghost predicate AllIndependent(pcs: seq<ProductChange>) {
    forall i, j :: 0 <= i < j < |pcs| ==> IndependentChanges(pcs[i], pcs[j])
  }

  lemma {:induction false} ChangesKeepSame(b: Book, b': Book, pcs: seq<ProductChange>)
    requires SameOrders(b, b')
    ensures SameOrders(ApplyAll(b, pcs), ApplyAll(b', pcs))
    decreases pcs
  {
    if pcs != [] {
      if pcs[0].Increment? {
        EventKeepsSame(b, b', pcs[0].event);
      }
      ChangesKeepSame(Apply(b, pcs[0]), Apply(b', pcs[0]), pcs[1..]);
    }
  }

  lemma FirstTwo(b: Book, d: ProductChange, e: ProductChange, rest: seq<ProductChange>)
    ensures ApplyAll(b, [d, e] + rest) == ApplyAll(Apply(Apply(b, d), e), rest)
  {
    assert ([d, e] + rest)[0] == d && ([d, e] + rest)[1..] == [e] + rest;
    assert ([e] + rest)[0] == e && ([e] + rest)[1..] == rest;
  }

  lemma SwapFirstTwo(b: Book, d: ProductChange, e: ProductChange, rest: seq<ProductChange>)
    requires IndependentChanges(d, e)
    ensures SameOrders(ApplyAll(b, [e, d] + rest), ApplyAll(b, [d, e] + rest))
  {
    FirstTwo(b, d, e, rest);
    FirstTwo(b, e, d, rest);
    TradePlacesIff(d, e);
    assert TradePlaces(b, d, e);
    SameOrdersBack(Apply(Apply(b, d), e), Apply(Apply(b, e), d));
    ChangesKeepSame(Apply(Apply(b, e), d), Apply(Apply(b, d), e), rest);
  }

  lemma AllIndependentWithout(pcs: seq<ProductChange>, i: nat)
    requires i < |pcs| && AllIndependent(pcs)
    ensures AllIndependent(pcs[..i] + pcs[i + 1..])
  {
    var rest := pcs[..i] + pcs[i + 1..];
    assert forall k :: 0 <= k < |rest| ==> rest[k] == pcs[if k < i then k else k + 1];
  }

  lemma SameOrdersChain(a: Book, b: Book, c: Book)
    requires SameOrders(a, b) && SameOrders(b, c)
    ensures SameOrders(a, c)
  {}

  lemma ApplyCons(b: Book, d: ProductChange, xs: seq<ProductChange>)
    ensures ApplyAll(b, [d] + xs) == ApplyAll(Apply(b, d), xs)
  {
    assert ([d] + xs)[1..] == xs;
  }

  lemma {:induction false} MoveToFrontKeepsOrders(b: Book, pcs: seq<ProductChange>, i: nat)
    requires i < |pcs| && AllIndependent(pcs)
    ensures SameOrders(ApplyAll(b, Reordering.MoveToFront(pcs, i)), ApplyAll(b, pcs))
    decreases i
  {
    if i == 0 {
      assert Reordering.MoveToFront(pcs, 0) == pcs;
    } else {
      var d, e, tail := pcs[0], pcs[i], pcs[1..];
      var rest := Reordering.MoveInTwoSteps(pcs, i);
      var moved := Reordering.MoveToFront(tail, i - 1);
      AllIndependentWithout(pcs, 0);
      assert pcs[..0] + pcs[1..] == tail;
      MoveToFrontKeepsOrders(Apply(b, d), tail, i - 1);
      ApplyCons(b, d, tail);
      ApplyCons(b, d, moved);
      SwapFirstTwo(b, d, e, rest);
      SameOrdersChain(ApplyAll(b, [e, d] + rest), ApplyAll(b, [d, e] + rest), ApplyAll(b, pcs));
    }
  }

  /** Any rearrangement of a batch of pairwise independent changes leaves, on any book, the same orders
      under every id in the same relative order. */
  lemma {:induction false} RearrangingKeepsOrders(b: Book, pcs: seq<ProductChange>, arranged: seq<ProductChange>)
    requires multiset(arranged) == multiset(pcs) && AllIndependent(pcs)
    ensures SameOrders(ApplyAll(b, arranged), ApplyAll(b, pcs))
    decreases |arranged|
  {
    if arranged == [] {
      assert |multiset(pcs)| == |multiset(arranged)|;
    } else {
      var i := Reordering.TakeOne(pcs, arranged);
      var rest := pcs[..i] + pcs[i + 1..];
      AllIndependentWithout(pcs, i);
      RearrangingKeepsOrders(Apply(b, pcs[i]), rest, arranged[1..]);
      ApplyCons(b, pcs[i], rest);
      MoveToFrontKeepsOrders(b, pcs, i);
      SameOrdersChain(ApplyAll(b, arranged), ApplyAll(b, [pcs[i]] + rest), ApplyAll(b, pcs));
    }
  }

  /** The same orders in all on each side. */
  lemma {:induction false} OnlyCounts(orders: seq<Order>, o: Order)
    ensures multiset(orders)[o] == multiset(Only(orders, o.orderId))[o]
  {
    if orders != [] {
      OnlyCounts(orders[1..], o);
      assert orders == [orders[0]] + orders[1..];
    }
  }

  lemma SameOrdersSameContent(b: Book, b': Book, side: Side)
    requires SameOrders(b, b')
    ensures multiset(b.On(side)) == multiset(b'.On(side))
  {
    forall o: Order ensures multiset(b.On(side))[o] == multiset(b'.On(side))[o] {
      OnlyCounts(b.On(side), o);
      OnlyCounts(b'.On(side), o);
      assert Pile(b, Cell(side, o.orderId)) == Pile(b', Cell(side, o.orderId));
    }
  }

  /** Batch after batch, each in an order of its own, on any book: each side ends with the same orders,
      and those of one id in the same relative order. */
  lemma {:induction false} RearrangedBatchesKeepOrders(b: Book, b': Book, batches: seq<seq<ProductChange>>, arranged: seq<seq<ProductChange>>)
    requires SameOrders(b', b) && Reordering.Rearranges(arranged, batches)
    requires forall i :: 0 <= i < |batches| ==> AllIndependent(batches[i])
    ensures var after, plain := ApplyAll(b', Reordering.Concat(arranged)), ApplyAll(b, Reordering.Concat(batches));
      SameOrders(after, plain) && multiset(after.bids) == multiset(plain.bids) && multiset(after.asks) == multiset(plain.asks)
    decreases |batches|
  {
    if batches != [] {
      ApplyAllConcat(b, batches[0], Reordering.Concat(batches[1..]));
      ApplyAllConcat(b', arranged[0], Reordering.Concat(arranged[1..]));
      RearrangingKeepsOrders(b', batches[0], arranged[0]);
      ChangesKeepSame(b', b, batches[0]);
      SameOrdersChain(ApplyAll(b', arranged[0]), ApplyAll(b', batches[0]), ApplyAll(b, batches[0]));
      RearrangedBatchesKeepOrders(ApplyAll(b, batches[0]), ApplyAll(b', arranged[0]), batches[1..], arranged[1..]);
    } else {
      SameOrdersSameContent(b', b, Buy);
      SameOrdersSameContent(b', b, Sell);
    }
  }
}
