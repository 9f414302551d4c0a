/** Batches in another order than they arrived. What a batch with a full order book leaves is decided by
    the batch alone, and so it can be decided exactly when another order leaves the same. */
module ResetBatches {
  import opened OrderBooks
  import opened ProductChanges
  import opened MapBooks
  import opened Reordering
  import VectorReordering

  ghost predicate HasReset(pcs: seq<ProductChange>) {
    exists pc :: pc in pcs && pc.Reset?
  }

  lemma HasResetCons(pcs: seq<ProductChange>)
    requires pcs != []
    ensures HasReset(pcs) <==> pcs[0].Reset? || HasReset(pcs[1..])
  {
    assert pcs == [pcs[0]] + pcs[1..];
  }

  lemma {:induction false} ResetDecides(b: Book, b': Book, pcs: seq<ProductChange>)
    requires HasReset(pcs)
    ensures ApplyAll(b, pcs) == ApplyAll(b', pcs)
    decreases pcs
  {
    HasResetCons(pcs);
    if HasReset(pcs[1..]) {
      ResetDecides(Apply(b, pcs[0]), Apply(b', pcs[0]), pcs[1..]);
    }
  }

  lemma SameHasReset(pcs: seq<ProductChange>, arranged: seq<ProductChange>)
    requires multiset(arranged) == multiset(pcs)
    ensures forall pc :: pc in arranged <==> pc in pcs
    ensures HasReset(arranged) <==> HasReset(pcs)
  {
    assert forall pc :: pc in arranged <==> pc in multiset(arranged);
    assert forall pc :: pc in pcs <==> pc in multiset(pcs);
  }

  /** Replayed on an empty book, the two orders of a batch leave the same orders, each id once a side. */
  ghost predicate LeavesSame(arranged: seq<ProductChange>, pcs: seq<ProductChange>) {
    var b := ApplyAll(EmptyBook, arranged);
    DistinctBook(b) && AsMap(b) == AsMap(ApplyAll(EmptyBook, pcs))
  }

  /** No change comes before one that it may not precede; or the batch holds a full order book, and it
      leaves the same. */
  ghost predicate Keeps(arranged: seq<ProductChange>, pcs: seq<ProductChange>) {
    Reorders(arranged, pcs) || (HasReset(pcs) && LeavesSame(arranged, pcs))
  }

  /** On a book whose ids are distinct, such an order leaves the true map in the vectors. */
  lemma BatchOnVectors(b: Book, pcs: seq<ProductChange>, arranged: seq<ProductChange>)
    requires DistinctBook(b) && AdmissibleAll(AsMap(b), pcs)
    requires multiset(arranged) == multiset(pcs) && Keeps(arranged, pcs)
    ensures DistinctBook(ApplyAll(b, arranged)) && AsMap(ApplyAll(b, arranged)) == ApplyAllM(AsMap(b), pcs)
  {
    if Reorders(arranged, pcs) {
      ReorderingIsHarmless(AsMap(b), pcs, arranged);
      ChangesRefine(b, arranged);
    } else {
      SameHasReset(pcs, arranged);
      ResetDecides(b, EmptyBook, pcs);
      ResetDecides(b, EmptyBook, arranged);
      ChangesRefine(b, pcs);
    }
  }

  /** For a batch with a full order book that is exact: another order leaves the true map in the vectors,
      each id once a side, exactly when it keeps. */
  lemma KeepsIff(b: Book, pcs: seq<ProductChange>, arranged: seq<ProductChange>)
    requires DistinctBook(b) && AdmissibleAll(AsMap(b), pcs) && HasReset(pcs)
    requires multiset(arranged) == multiset(pcs)
    ensures (DistinctBook(ApplyAll(b, arranged)) && AsMap(ApplyAll(b, arranged)) == ApplyAllM(AsMap(b), pcs)) <==> Keeps(arranged, pcs)
  {
    if Keeps(arranged, pcs) {
      BatchOnVectors(b, pcs, arranged);
    } else {
      SameHasReset(pcs, arranged);
      ResetDecides(b, EmptyBook, pcs);
      ResetDecides(b, EmptyBook, arranged);
      ChangesRefine(b, pcs);
    }
  }

  // What comes before the last full order book does not matter.

  /** The changes from the last full order book on, or all if there is none. */
  ghost function FromLast(pcs: seq<ProductChange>): seq<ProductChange> {
    if pcs == [] || !HasReset(pcs[1..]) then pcs else FromLast(pcs[1..])
  }

  lemma {:induction false} FromLastDecides(b: Book, pcs: seq<ProductChange>)
    requires HasReset(pcs)
    ensures HasReset(FromLast(pcs)) && ApplyAll(b, FromLast(pcs)) == ApplyAll(b, pcs)
    decreases pcs
  {
    if HasReset(pcs[1..]) {
      FromLastDecides(b, pcs[1..]);
      ResetDecides(b, Apply(b, pcs[0]), pcs[1..]);
    }
  }

  lemma {:induction false} FromLastAdmissible(m: MapBook, m': MapBook, pcs: seq<ProductChange>)
    requires HasReset(pcs) && AdmissibleAll(m, pcs)
    ensures AdmissibleAll(m', FromLast(pcs))
    decreases pcs
  {
    HasResetCons(pcs);
    if HasReset(pcs[1..]) {
      FromLastAdmissible(ApplyM(m, pcs[0]), m', pcs[1..]);
    }
  }

  /** So it is enough that no change from there on comes before one that it may not precede. */
  lemma FromLastKeeps(b: Book, pcs: seq<ProductChange>, arranged: seq<ProductChange>)
    requires DistinctBook(b) && AdmissibleAll(AsMap(b), pcs) && HasReset(pcs)
    requires multiset(arranged) == multiset(pcs) && Reorders(FromLast(arranged), FromLast(pcs))
    ensures Keeps(arranged, pcs)
  {
    SameHasReset(pcs, arranged);
    FromLastDecides(EmptyBook, pcs);
    FromLastDecides(EmptyBook, arranged);
    FromLastAdmissible(AsMap(b), AsMap(EmptyBook), pcs);
    ReorderingIsHarmless(AsMap(EmptyBook), FromLast(pcs), FromLast(arranged));
    ChangesRefine(EmptyBook, FromLast(pcs));
    ChangesRefine(EmptyBook, FromLast(arranged));
  }

  // When every order leaves the same.

  /** All full order books of the batch leave the same, and its events have nothing to do on that. */
  ghost predicate Indifferent(pcs: seq<ProductChange>) {
    forall d, e :: d in pcs && e in pcs && d.Reset? ==> CompatibleChanges(d, e)
  }

  lemma UnmovedIff(d: ProductChange, e: ProductChange)
    requires d.Reset?
    ensures ApplyM(Left(d), e) == Left(d) <==> CompatibleChanges(d, e)
  {
    ResetCommutesIff(map[], d, e);
  }

  lemma {:induction false} Stays(d: ProductChange, pcs: seq<ProductChange>)
    requires d.Reset? && forall e :: e in pcs ==> CompatibleChanges(d, e)
    ensures ApplyAllM(Left(d), pcs) == Left(d)
    decreases pcs
  {
    if pcs != [] {
      UnmovedIff(d, pcs[0]);
      Stays(d, pcs[1..]);
    }
  }

  lemma {:induction false} EndsAt(m: MapBook, d: ProductChange, pcs: seq<ProductChange>)
    requires d.Reset? && HasReset(pcs) && forall e :: e in pcs ==> CompatibleChanges(d, e)
    ensures ApplyAllM(m, pcs) == Left(d)
    decreases pcs
  {
    HasResetCons(pcs);
    if pcs[0].Reset? {
      assert CompatibleChanges(d, pcs[0]);
      Stays(d, pcs[1..]);
    } else {
      EndsAt(ApplyM(m, pcs[0]), d, pcs[1..]);
    }
  }

  lemma OneLast(pcs: seq<ProductChange>, d: ProductChange) returns (rest: seq<ProductChange>)
    requires d in pcs
    ensures multiset(rest) + multiset{d} == multiset(pcs)
  {
    var i :| 0 <= i < |pcs| && pcs[i] == d;
    rest := pcs[..i] + pcs[i + 1..];
    assert pcs == pcs[..i] + [pcs[i]] + pcs[i + 1..];
  }

  lemma TwoLast(pcs: seq<ProductChange>, d: ProductChange, e: ProductChange) returns (rest: seq<ProductChange>)
    requires d in pcs && e in pcs && d != e
    ensures multiset(rest + [d, e]) == multiset(rest + [e, d]) == multiset(pcs)
  {
    var most := OneLast(pcs, d);
    assert e in multiset(pcs) && e in multiset(most);
    rest := OneLast(most, e);
    assert multiset([d, e]) == multiset([e, d]) == multiset{d} + multiset{e};
  }

  lemma LastTwo(m: MapBook, rest: seq<ProductChange>, d: ProductChange, e: ProductChange)
    ensures ApplyAllM(m, rest + [d, e]) == ApplyM(ApplyM(ApplyAllM(m, rest), d), e)
  {
    ApplyAllMConcat(m, rest, [d, e]);
    FirstTwo(ApplyAllM(m, rest), d, e, []);
    assert [d, e] + [] == [d, e];
  }

  ghost predicate AnyOrderLeavesSame(pcs: seq<ProductChange>) {
    forall arranged: seq<ProductChange>, m: MapBook :: multiset(arranged) == multiset(pcs) ==> ApplyAllM(m, arranged) == ApplyAllM(m, pcs)
  }

  /** What a batch leaves that ends with a full order book and then another change, or the other way round. */
  lemma ResetLast(m: MapBook, rest: seq<ProductChange>, d: ProductChange, e: ProductChange)
    requires d.Reset?
    ensures ApplyAllM(m, rest + [d, e]) == ApplyM(Left(d), e) && ApplyAllM(m, rest + [e, d]) == Left(d)
  {
    LastTwo(m, rest, d, e);
    LastTwo(m, rest, e, d);
  }

  lemma SameInAnyOrder(pcs: seq<ProductChange>, arranged: seq<ProductChange>, m: MapBook)
    requires AnyOrderLeavesSame(pcs) && multiset(arranged) == multiset(pcs)
    ensures ApplyAllM(m, arranged) == ApplyAllM(m, pcs)
  {}

  lemma AnyOrderIsIndifferent(pcs: seq<ProductChange>, d: ProductChange, e: ProductChange)
    requires AnyOrderLeavesSame(pcs) && d in pcs && e in pcs && d.Reset?
    ensures CompatibleChanges(d, e)
  {
    if d != e {
      var rest := TwoLast(pcs, d, e);
      SameInAnyOrder(pcs, rest + [d, e], map[]);
      SameInAnyOrder(pcs, rest + [e, d], map[]);
      ResetLast(map[], rest, d, e);
      UnmovedIff(d, e);
    }
  }

  /** For a batch of any length with a full order book in it: every order of it gives the same map on
      every map exactly when it is indifferent. */
  lemma AnyOrderIff(pcs: seq<ProductChange>)
    requires HasReset(pcs)
    ensures AnyOrderLeavesSame(pcs) <==> Indifferent(pcs)
  {
    if AnyOrderLeavesSame(pcs) {
      forall d, e | d in pcs && e in pcs && d.Reset? ensures CompatibleChanges(d, e) {
        AnyOrderIsIndifferent(pcs, d, e);
      }
    }
    if Indifferent(pcs) {
      var d :| d in pcs && d.Reset?;
      forall arranged: seq<ProductChange>, m: MapBook | multiset(arranged) == multiset(pcs)
        ensures ApplyAllM(m, arranged) == ApplyAllM(m, pcs)
      {
        SameHasReset(pcs, arranged);
        EndsAt(m, d, pcs);
        EndsAt(m, d, arranged);
      }
    }
  }

  // The same on the vectors, where an order that is opened behind the full order book is listed twice.

  lemma {:induction false} ResetsAdmissible(m: MapBook, any: MapBook, pcs: seq<ProductChange>)
    requires AdmissibleAll(m, pcs)
    ensures forall pc :: pc in pcs && pc.Reset? ==> Admissible(any, pc)
    decreases pcs
  {
    if pcs != [] {
      ResetsAdmissible(ApplyM(m, pcs[0]), any, pcs[1..]);
      assert pcs == [pcs[0]] + pcs[1..];
    }
  }

  lemma {:induction false} UnopenedAdmissible(m: MapBook, pcs: seq<ProductChange>)
    requires forall pc :: pc in pcs ==> !Opens(pc) && (pc.Reset? ==> Admissible(map[], pc))
    ensures AdmissibleAll(m, pcs)
    decreases pcs
  {
    if pcs != [] {
      UnopenedAdmissible(ApplyM(m, pcs[0]), pcs[1..]);
      assert pcs[0] in pcs;
    }
  }

  /** An order that is opened is new to the map, or listed twice. */
  lemma OpenMoves(b: Book, e: Event)
    requires DistinctBook(b) && e.Open? && DistinctBook(ApplyEvent(b, e))
    ensures AsMap(ApplyEvent(b, e)) != AsMap(b)
  {
    var orders, o := b.On(e.side), Order(e.price, e.remainingSize, e.orderId);
    var longer := orders + [o];
    assert ApplyEvent(b, e).On(e.side) == longer;
    assert forall k :: 0 <= k < |orders| ==> longer[k] == orders[k] && longer[k].orderId != longer[|orders|].orderId;
    assert IndexOf(orders, e.orderId) == |orders|;
    EventRefines(b, e);
    assert Target(e) !in AsMap(b);
  }

  ghost predicate AnyOrderKeeps(pcs: seq<ProductChange>) {
    forall arranged: seq<ProductChange> :: multiset(arranged) == multiset(pcs) ==> Keeps(arranged, pcs)
  }

  lemma LastTwoOnVectors(b: Book, rest: seq<ProductChange>, d: ProductChange, e: ProductChange)
    ensures ApplyAll(b, rest + [d, e]) == Apply(Apply(ApplyAll(b, rest), d), e)
  {
    ApplyAllConcat(b, rest, [d, e]);
    VectorReordering.FirstTwo(ApplyAll(b, rest), d, e, []);
    assert [d, e] + [] == [d, e];
  }

  lemma KeptOrdersAreIndifferent(b: Book, pcs: seq<ProductChange>, d: ProductChange, e: ProductChange)
    requires DistinctBook(b) && AdmissibleAll(AsMap(b), pcs) && AnyOrderKeeps(pcs)
    requires d in pcs && e in pcs && d.Reset? && d != e
    ensures CompatibleChanges(d, e) && !Opens(e)
  {
    var rest := TwoLast(pcs, d, e);
    var left := Apply(b, d);
    LastTwoOnVectors(b, rest, d, e);
    LastTwoOnVectors(b, rest, e, d);
    assert Keeps(rest + [d, e], pcs) && Keeps(rest + [e, d], pcs);
    KeepsIff(b, pcs, rest + [d, e]);
    KeepsIff(b, pcs, rest + [e, d]);
    ResetsAdmissible(AsMap(b), AsMap(b), pcs);
    ChangeRefines(b, d);
    assert AsMap(Apply(left, e)) == AsMap(left) == Left(d) && DistinctBook(left);
    if Opens(e) {
      OpenMoves(left, e.event);
    } else {
      assert Admissible(AsMap(left), e) by { ResetsAdmissible(AsMap(b), AsMap(left), pcs); }
      ChangeRefines(left, e);
      UnmovedIff(d, e);
    }
  }

  lemma IndifferentKeeps(b: Book, pcs: seq<ProductChange>, arranged: seq<ProductChange>)
    requires DistinctBook(b) && AdmissibleAll(AsMap(b), pcs) && HasReset(pcs)
    requires multiset(arranged) == multiset(pcs) && Indifferent(pcs) && forall pc :: pc in pcs ==> !Opens(pc)
    ensures Keeps(arranged, pcs)
  {
    var d :| d in pcs && d.Reset?;
    var m := AsMap(EmptyBook);
    SameHasReset(pcs, arranged);
    ResetsAdmissible(AsMap(b), map[], pcs);
    UnopenedAdmissible(m, pcs);
    UnopenedAdmissible(m, arranged);
    ChangesRefine(EmptyBook, pcs);
    ChangesRefine(EmptyBook, arranged);
    EndsAt(m, d, pcs);
    EndsAt(m, d, arranged);
  }

  /** For a batch with a full order book in it, admissible in the order in which it arrived: every order
      of it keeps exactly when it is indifferent and opens no order. */
  lemma AnyOrderKeepsIff(b: Book, pcs: seq<ProductChange>)
    requires DistinctBook(b) && AdmissibleAll(AsMap(b), pcs) && HasReset(pcs)
    ensures AnyOrderKeeps(pcs) <==> Indifferent(pcs) && forall pc :: pc in pcs ==> !Opens(pc)
  {
    if AnyOrderKeeps(pcs) {
      forall d, e | d in pcs && e in pcs && d.Reset? ensures CompatibleChanges(d, e) && !Opens(e) {
        if d != e {
          KeptOrdersAreIndifferent(b, pcs, d, e);
        }
      }
    } else {
      var arranged: seq<ProductChange> :| multiset(arranged) == multiset(pcs) && !Keeps(arranged, pcs);
      if Indifferent(pcs) && forall pc :: pc in pcs ==> !Opens(pc) {
        IndifferentKeeps(b, pcs, arranged);
      }
    }
  }

  // Batch after batch.

  ghost predicate KeepsAll(arranged: seq<seq<ProductChange>>, batches: seq<seq<ProductChange>>) {
    Rearranges(arranged, batches) && forall i :: 0 <= i < |batches| ==> Keeps(arranged[i], batches[i])
  }

  /** Batch after batch, each in an order of its own that keeps, the vectors hold the true map. */
  lemma {:induction false} BatchesOnVectors(b: Book, batches: seq<seq<ProductChange>>, arranged: seq<seq<ProductChange>>)
    requires KeepsAll(arranged, batches) && DistinctBook(b) && AdmissibleAll(AsMap(b), Concat(batches))
    ensures var after := ApplyAll(b, Concat(arranged)); DistinctBook(after) && AsMap(after) == ApplyAllM(AsMap(b), Concat(batches))
    decreases |batches|
  {
    if batches != [] {
      ApplyAllMConcat(AsMap(b), batches[0], Concat(batches[1..]));
      ApplyAllConcat(b, arranged[0], Concat(arranged[1..]));
      BatchOnVectors(b, batches[0], arranged[0]);
      BatchesOnVectors(ApplyAll(b, arranged[0]), batches[1..], arranged[1..]);
    }
  }

  lemma OrderlessKeepsAll(batches: seq<seq<ProductChange>>, arranged: seq<seq<ProductChange>>)
    requires Rearranges(arranged, batches) && forall i :: 0 <= i < |batches| ==> Orderless(batches[i])
    ensures KeepsAll(arranged, batches)
  {
    forall i | 0 <= i < |batches| ensures Keeps(arranged[i], batches[i]) {
      OrderlessReorders(batches[i], arranged[i]);
    }
  }
}
