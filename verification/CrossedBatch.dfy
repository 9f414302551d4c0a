/** The condition on batches in the end-to-end theorem is needed: a run in which the hash multimap
    moves a full order book behind the message that follows it. */
module CrossedBatch {
  import opened OrderBooks
  import opened ProductChanges
  import opened MapBooks
  import opened Messages
  import opened Invariants
  import opened Exchange
  import opened Markets
  import opened EndToEnd
  import FeedProduct
  import MarketRuns
  import NoRegress

  /** Two orders are opened after the full order book numbered one. */
  const Crossed := History(map[], [Quiet(1), Opening(2, "a"), Opening(3, "b")])

  const Steps: seq<FeedProduct.Step> := [
    FeedProduct.FetchComplete(FeedProduct.Reply(Some(1), Some(EmptyBook))),
    FeedProduct.Receive(Opening(2, "a")), FeedProduct.Receive(Opening(3, "b")),
    FeedProduct.Drain, FeedProduct.DeliverNext, FeedProduct.DeliverNext, FeedProduct.DeliverNext]

  const Entries := [Snapshot(1, Some(EmptyBook), []), Live(Opening(2, "a")), Live(Opening(3, "b"))]

  /** Their changes: the full order book, the first order, the second. */
  function Base(id: string): ProductChange { Reset(id, 1, [], [], []) }
  function First(id: string): ProductChange { Increment(id, 2, Open("a", 1.0, 1.0, Buy)) }
  function Second(id: string): ProductChange { Increment(id, 3, Open("b", 1.0, 1.0, Buy)) }

  /** The multimap iterates the first two in the other order, and the third comes a turn later. */
  function Turns(id: string): seq<MarketRuns.MarketStep> {
    [MarketRuns.Enqueue(Base(id), [Base(id)]), MarketRuns.Enqueue(First(id), [First(id), Base(id)]), MarketRuns.Turn,
     MarketRuns.Enqueue(Second(id), [Second(id)]), MarketRuns.Turn]
  }

  function NewMarket(id: string): MarketState { OneProduct(id, [], ProductState(EmptyBook, [])) }

  lemma TrueBooks()
    ensures Crossed.Valid() && Crossed.At(1) == map[]
    ensures Cell(Buy, "a") in Crossed.At(2) && Cell(Buy, "a") in Crossed.At(3)
  {
    QuietAndOpening(1, "a");
    QuietAndOpening(2, "a");
    QuietAndOpening(3, "b");
    var x := Crossed;
    assert x.At(0) == map[];
    assert x.At(1) == EffectM(x.At(0), Quiet(1)) == map[];
    assert x.At(2) == EffectM(x.At(1), Opening(2, "a")) == map[Cell(Buy, "a") := Quote(1.0, 1.0)];
    assert "a"[0] != "b"[0];
    assert x.At(3) == EffectM(x.At(2), Opening(3, "b"));
    assert x.Numbered(1) && x.Numbered(2) && x.Numbered(3);
  }

  /** Unfolding a run, and the conditions on it, by one step. */
  lemma FeedAhead(x: History, t: NoRegress.Tracked, steps: seq<FeedProduct.Step>, i: nat)
    requires i < |steps|
    ensures FeedProduct.Run(t.s, steps[i..]) == FeedProduct.Run(FeedProduct.Next(t.s, steps[i]), steps[i + 1..])
    ensures Faithful(x, t.s, steps[i..]) <==> FaithfulStep(x, t.s, steps[i]) && Faithful(x, FeedProduct.Next(t.s, steps[i]), steps[i + 1..])
    ensures NoRegress.Current(t, steps[i..]) <==> NoRegress.CurrentStep(t, steps[i]) && NoRegress.Current(NoRegress.Track(t, steps[i]), steps[i + 1..])
  {
    assert steps[i..][1..] == steps[i + 1..];
  }

  /** The loop takes and hands over what is queued, under the same conditions. */
  lemma LoopRuns()
    ensures var s := FeedProduct.State(Entries, 3, false, FeedProduct.Installed, [], []);
      && FeedProduct.Run(s, Steps[3..]).delivered == Entries
      && Faithful(Crossed, s, Steps[3..]) && NoRegress.Current(NoRegress.Tracked(s, 0, 0), Steps[3..])
  {
    var es, steps := Entries, Steps;
    var s3 := FeedProduct.State(es, 3, false, FeedProduct.Installed, [], []);
    var s4 := FeedProduct.State([], 3, false, FeedProduct.Installed, es, []);
    var s5 := FeedProduct.State([], 3, false, FeedProduct.Installed, [es[1], es[2]], [es[0]]);
    var s6 := FeedProduct.State([], 3, false, FeedProduct.Installed, [es[2]], [es[0], es[1]]);
    var s7 := FeedProduct.State([], 3, false, FeedProduct.Installed, [], es);
    assert steps[7..] == [] && FeedProduct.Next(s6, steps[6]) == s7;
    FeedAhead(Crossed, NoRegress.Tracked(s6, 0, 0), steps, 6);
    assert FeedProduct.Next(s5, steps[5]) == s6;
    FeedAhead(Crossed, NoRegress.Tracked(s5, 0, 0), steps, 5);
    assert FeedProduct.Next(s4, steps[4]) == s5;
    FeedAhead(Crossed, NoRegress.Tracked(s4, 0, 0), steps, 4);
    assert FeedProduct.Next(s3, steps[3]) == s4;
    FeedAhead(Crossed, NoRegress.Tracked(s3, 0, 0), steps, 3);
  }

  lemma FeedRuns()
    ensures FeedProduct.Run(FeedProduct.Initial, Steps).delivered == Entries
    ensures Faithful(Crossed, FeedProduct.Initial, Steps) && NoRegress.Current(NoRegress.Start, Steps)
  {
    TrueBooks();
    AsMapEmpty();
    LoopRuns();
    var x, es, steps := Crossed, Entries, Steps;
    var s1 := FeedProduct.State([es[0]], 1, false, FeedProduct.Installed, [], []);
    var s2 := FeedProduct.State([es[0], es[1]], 2, false, FeedProduct.Installed, [], []);
    var s3 := FeedProduct.State(es, 3, false, FeedProduct.Installed, [], []);
    assert FeedProduct.Next(s2, steps[2]) == s3;
    FeedAhead(x, NoRegress.Tracked(s2, 0, 0), steps, 2);
    assert FeedProduct.Next(s1, steps[1]) == s2;
    FeedAhead(x, NoRegress.Tracked(s1, 0, 0), steps, 1);
    assert FeedProduct.Next(FeedProduct.Initial, steps[0]) == s1;
    FeedAhead(x, NoRegress.Start, steps, 0);
    assert steps[0..] == steps;
  }

  lemma EntriesTranslate(id: string)
    ensures TranslateAll(id, Entries) == [Base(id), First(id), Second(id)]
  {
    QuietAndOpening(2, "a");
    QuietAndOpening(3, "b");
    var es := Entries;
    assert es == [es[0]] + ([es[1]] + [es[2]]);
    TranslateAllConcat(id, [es[0]], [es[1]] + [es[2]]);
    TranslateAllConcat(id, [es[1]], [es[2]]);
    LeadsOne(map[], id, es[0]);
    LeadsOne(map[], id, es[1]);
    LeadsOne(map[], id, es[2]);
    assert TranslateAll(id, es[0].toMerge) == [];
  }

  lemma MarketAhead(s: MarketState, turns: seq<MarketRuns.MarketStep>, i: nat)
    requires i < |turns| && (turns[i].Enqueue? ==> multiset(turns[i].arranged) == multiset(s.pending) + multiset{turns[i].pc})
    ensures MarketRuns.Run(s, turns[i..]) == MarketRuns.Run(MarketRuns.Next(s, turns[i]), turns[i + 1..])
    ensures MarketRuns.Arriving(s, turns[i..]) <==> MarketRuns.Arriving(MarketRuns.Next(s, turns[i]), turns[i + 1..])
  {
    assert turns[i..][1..] == turns[i + 1..];
  }

  function OneProduct(id: string, pending: seq<ProductChange>, p: ProductState): MarketState { MarketState(pending, map[id := p]) }

  lemma DrainedOne(id: string, pending: seq<ProductChange>, p: ProductState)
    requires forall pc :: pc in pending ==> pc.productId == id
    ensures Drained(OneProduct(id, pending, p)) == OneProduct(id, [], After(p, pending))
  {
    OfGroup(pending, id, id);
  }

  /** The first turn leaves the empty book, the second one the second order alone. */
  lemma TurnsApply(id: string)
    ensures ApplyAll(EmptyBook, [First(id), Base(id)]) == EmptyBook
    ensures ApplyAll(EmptyBook, [Second(id)]) == Book([Order(1.0, 1.0, "b")], [])
  {
    ApplyAllConcat(EmptyBook, [First(id)], [Base(id)]);
    var b := ApplyAll(EmptyBook, [First(id)]);
    assert [Base(id)][1..] == [] && Apply(b, Base(id)) == EmptyBook;
    assert ApplyAll(b, [Base(id)]) == EmptyBook;
    assert [Second(id)][1..] == [] && Apply(EmptyBook, Second(id)) == Book([Order(1.0, 1.0, "b")], []);
  }

  const OnlySecond := Book([Order(1.0, 1.0, "b")], [])

  lemma MarketRunsOn(id: string)
    ensures MarketRuns.Arriving(NewMarket(id), Turns(id))
    ensures MarketRuns.Run(NewMarket(id), Turns(id)) == OneProduct(id, [], ProductState(OnlySecond, [EmptyBook, OnlySecond]))
  {
    var turns, r, a, b := Turns(id), Base(id), First(id), Second(id);
    var p0, p1, p2 := ProductState(EmptyBook, []), ProductState(EmptyBook, [EmptyBook]), ProductState(OnlySecond, [EmptyBook, OnlySecond]);
    TurnsApply(id);
    assert After(p0, [a, r]) == p1 && After(p1, [b]) == p2;
    DrainedOne(id, [a, r], p0);
    DrainedOne(id, [b], p1);
    assert turns[5..] == [] && turns[0..] == turns;
    MarketAhead(OneProduct(id, [b], p1), turns, 4);
    MarketAhead(OneProduct(id, [], p1), turns, 3);
    MarketAhead(OneProduct(id, [a, r], p0), turns, 2);
    MarketAhead(OneProduct(id, [r], p0), turns, 1);
    MarketAhead(OneProduct(id, [], p0), turns, 0);
  }

  lemma ChangesArrive(id: string)
    ensures MarketRuns.Enqueued(Turns(id), id) == [Base(id), First(id), Second(id)]
  {
    var turns := Turns(id);
    assert turns[1..][1..] == turns[2..] && turns[2..][1..] == turns[3..] && turns[3..][1..] == turns[4..] && turns[4..][1..] == [];
    assert MarketRuns.Enqueued(turns[4..], id) == [];
    assert MarketRuns.Enqueued(turns[3..], id) == [Second(id)];
    assert MarketRuns.Enqueued(turns[2..], id) == [Second(id)];
    assert MarketRuns.Enqueued(turns[1..], id) == [First(id), Second(id)];
  }

  /** The exchange never had the second order without the first. */
  lemma NotTheSecond()
    ensures forall k :: 0 <= k < 3 ==> !TrueAt(Crossed, Entries, k, OnlySecond)
  {
    TrueBooks();
    var m := AsMap(OnlySecond);
    assert OnlySecond.On(Buy)[0].orderId == "b" && "a"[0] != "b"[0];
    assert Cell(Buy, "a") !in m;
    assert Found(OnlySecond.On(Buy), "b") != map[];
    assert Cell(Buy, "b") in m;
  }

  /** The feed run is faithful and never goes back, every change arrives at the market and is applied,
      but the multimap puts the message that follows the full order book in front of it. Then the second
      book that is published is no true book, of this entry or any other, and it is the one that stays. */
  lemma FalseBookIsPublished(id: string)
    ensures Crossed.Valid() && Faithful(Crossed, FeedProduct.Initial, Steps) && NoRegress.Current(NoRegress.Start, Steps)
    ensures Followed(NewMarket(id), Turns(id), id)
    ensures Fits([Base(id)], id, 0) && Turns(id)[1].arranged == Inserted([Base(id)], First(id), 0)
    ensures var es := FeedProduct.Run(FeedProduct.Initial, Steps).delivered;
      var t := MarketRuns.Run(NewMarket(id), Turns(id));
      && MarketRuns.Enqueued(Turns(id), id) == TranslateAll(id, es) && t.pending == []
      && id in t.products && |t.products[id].published| == 2 && t.products[id].book == t.products[id].published[1]
      && (forall k :: 0 <= k < |es| ==> !TrueAt(Crossed, es, k, t.products[id].published[1]))
  {
    TrueBooks();
    FeedRuns();
    EntriesTranslate(id);
    MarketRunsOn(id);
    ChangesArrive(id);
    NotTheSecond();
    assert [Base(id)][0].productId == id;
  }
}
