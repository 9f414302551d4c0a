/** From the exchange to the publisher: the feed protocol, the translation, the market's batches and
    the vectors of the book, composed. */
module EndToEnd {
  import opened OrderBooks
  import opened ProductChanges
  import opened MapBooks
  import opened Reordering
  import opened ResetBatches
  import opened Messages
  import opened Invariants
  import opened Exchange
  import opened Markets
  import FeedProduct
  import MarketRuns
  import NoRegress

  /** Every prefix of the changes is the changes of a prefix of the entries. */
  lemma {:induction false} TranslatePrefix(productId: string, es: seq<Entry>, j: nat) returns (k: nat)
    requires j <= |TranslateAll(productId, es)|
    ensures k <= |es| && TranslateAll(productId, es[..k]) == TranslateAll(productId, es)[..j]
    decreases |es|
  {
    if es == [] || j == |TranslateAll(productId, es)| {
      k := |es|;
      assert es[..k] == es;
    } else {
      var last := |es| - 1;
      assert es == es[..last] + [es[last]];
      TranslateAllConcat(productId, es[..last], [es[last]]);
      LeadsOne(map[], productId, es[last]);
      k := TranslatePrefix(productId, es[..last], j);
      assert es[..last][..k] == es[..k];
    }
  }

  lemma AsMapEmpty()
    ensures DistinctBook(EmptyBook) && AsMap(EmptyBook) == map[]
  {}

  lemma {:induction false} ConcatPrefix(batches: seq<seq<ProductChange>>, i: nat)
    requires i <= |batches|
    ensures Concat(batches[..i]) <= Concat(batches)
    ensures i > 0 && batches[0] != [] ==> Concat(batches[..i]) != []
    decreases i
  {
    if i > 0 {
      ConcatPrefix(batches[1..], i - 1);
      assert batches[..i][1..] == batches[1..][..i - 1];
    }
  }

  /** More batches are more changes, and more entries are no fewer changes. */
  lemma {:induction false} ConcatGrows(batches: seq<seq<ProductChange>>, i: nat, j: nat)
    requires i < j <= |batches| && batches[i] != []
    ensures |Concat(batches[..i])| < |Concat(batches[..j])|
    decreases i
  {
    assert batches[..j][1..] == batches[1..][..j - 1];
    if i > 0 {
      assert batches[..i][1..] == batches[1..][..i - 1];
      ConcatGrows(batches[1..], i - 1, j - 1);
    }
  }

  lemma TranslateGrows(productId: string, es: seq<Entry>, i: nat, j: nat)
    requires i <= j <= |es|
    ensures |TranslateAll(productId, es[..i])| <= |TranslateAll(productId, es[..j])|
  {
    TranslateAllConcat(productId, es[..i], es[i..j]);
    assert es[..j] == es[..i] + es[i..j];
  }

  /** A book is, order by order, the true book at the head of the entry at position k. */
  ghost predicate TrueAt(x: History, es: seq<Entry>, k: nat, b: Book) {
    k < |es| && Head(es[k]) <= |x.events| && DistinctBook(b) && AsMap(b) == x.At(Head(es[k]))
  }

  lemma SoundPrefix(x: History, es: seq<Entry>, n: nat)
    requires n <= |es| && SoundLog(x, es) && Epochs(es)
    ensures SoundLog(x, es[..n]) && Epochs(es[..n])
  {
    assert forall e :: e in es[..n] ==> e in es;
  }

  /** A nonempty prefix of the changes leads to a true book. */
  lemma PrefixIsTrue(x: History, productId: string, es: seq<Entry>, pcs: seq<ProductChange>) returns (k: nat)
    requires x.Valid() && SoundLog(x, es) && Epochs(es)
    requires pcs != [] && pcs <= TranslateAll(productId, es)
    ensures k < |es| && Head(es[k]) <= |x.events| && Leads(map[], pcs, x.At(Head(es[k])))
    ensures TranslateAll(productId, es[..k + 1]) == pcs
  {
    var n := TranslatePrefix(productId, es, |pcs|);
    var part := es[..n];
    assert TranslateAll(productId, part) == pcs && part != [];
    SoundPrefix(x, es, n);
    k := n - 1;
    assert part[|part| - 1] == es[k];
    LogFollows(x, productId, part, map[]);
  }

  /** The entries handed over in a faithful run. */
  lemma DeliveredIsSound(x: History, steps: seq<FeedProduct.Step>)
    requires x.Valid() && Faithful(x, FeedProduct.Initial, steps)
    ensures var es := FeedProduct.Run(FeedProduct.Initial, steps).delivered; SoundLog(x, es) && Epochs(es)
  {
    EveryReachableState(steps);
    SoundRun(x, FeedProduct.Initial, steps);
    var t := FeedProduct.Run(FeedProduct.Initial, steps);
    assert forall j :: 0 <= j < |t.delivered| ==> t.delivered[j] == (t.delivered + t.batch)[j];
    assert forall e :: e in t.delivered ==> e in t.delivered + t.batch;
  }

  /** The changes of the first i batches, reordered, lead the empty book to the true one after the
      entries whose changes these are. */
  lemma BatchesAreTrue(x: History, productId: string, es: seq<Entry>, batches: seq<seq<ProductChange>>, arranged: seq<seq<ProductChange>>, i: nat)
    returns (k: nat)
    requires x.Valid() && SoundLog(x, es) && Epochs(es)
    requires KeepsAll(arranged, batches) && 0 < i <= |batches|
    requires forall j :: 0 <= j < |batches| ==> batches[j] != []
    requires Concat(batches) <= TranslateAll(productId, es)
    ensures TrueAt(x, es, k, ApplyAll(EmptyBook, Concat(arranged[..i])))
    ensures TranslateAll(productId, es[..k + 1]) == Concat(batches[..i])
  {
    ConcatPrefix(batches, i);
    var pcs := Concat(batches[..i]);
    k := PrefixIsTrue(x, productId, es, pcs);
    AsMapEmpty();
    BatchesOnVectors(EmptyBook, batches[..i], arranged[..i]);
  }

  /** A product is subscribed, new, with no changes of its own pending, and stays subscribed; the multimap gains
      exactly what arrives. */
  ghost predicate Followed(s: MarketState, turns: seq<MarketRuns.MarketStep>, productId: string) {
    && productId in s.products && s.products[productId] == ProductState(EmptyBook, [])
    && Of(s.pending, productId) == []
    && MarketRuns.Proper(s, turns, productId)
  }

  /** In each batch of the product, the multimap puts no change before one that it may not precede, or
      the batch holds a full order book and leaves the same. */
  ghost predicate OrderKept(s: MarketState, turns: seq<MarketRuns.MarketStep>, productId: string) {
    KeepsAll(MarketRuns.Taken(s, turns, productId), MarketRuns.Batches([], turns, productId))
  }

  /** That is so, whatever the multimap does, if no batch holds changes whose order could matter. */
  lemma OrderNeverMatters(s: MarketState, turns: seq<MarketRuns.MarketStep>, productId: string)
    requires Followed(s, turns, productId)
    requires forall batch :: batch in MarketRuns.Batches([], turns, productId) ==> Orderless(batch)
    ensures OrderKept(s, turns, productId)
  {
    var batches := MarketRuns.Batches([], turns, productId);
    MarketRuns.ProductTakesBatches(s, [], turns, productId);
    assert forall i :: 0 <= i < |batches| ==> batches[i] in batches;
    OrderlessKeepsAll(batches, MarketRuns.Taken(s, turns, productId));
  }

  /** The market's side: the product's book and views are those of its batches as they were taken. */
  lemma MarketSide(s: MarketState, turns: seq<MarketRuns.MarketStep>, productId: string)
    returns (batches: seq<seq<ProductChange>>, arranged: seq<seq<ProductChange>>, rest: seq<ProductChange>)
    requires Followed(s, turns, productId)
    ensures batches == MarketRuns.Batches([], turns, productId) && arranged == MarketRuns.Taken(s, turns, productId)
    ensures |arranged| == |batches| && forall i :: 0 <= i < |batches| ==> batches[i] != []
    ensures Concat(batches) + rest == MarketRuns.Enqueued(turns, productId)
    ensures var t := MarketRuns.Run(s, turns);
      && multiset(rest) == multiset(Of(t.pending, productId))
      && productId in t.products
      && t.products[productId] == ProductState(ApplyAll(EmptyBook, Concat(arranged)), MarketRuns.Views(EmptyBook, arranged))
  {
    batches, rest := MarketRuns.Batches([], turns, productId), MarketRuns.Waiting([], turns, productId);
    arranged := MarketRuns.Taken(s, turns, productId);
    BatchesOfRun(turns, productId);
    MarketRuns.ProductTakesBatches(s, [], turns, productId);
    SameBatchesNonempty(arranged, batches);
    MarketRuns.OneViewPerBatch(s.products[productId], arranged);
    assert [] + MarketRuns.Views(EmptyBook, arranged) == MarketRuns.Views(EmptyBook, arranged);
  }

  lemma BatchesOfRun(turns: seq<MarketRuns.MarketStep>, productId: string)
    ensures var batches, rest := MarketRuns.Batches([], turns, productId), MarketRuns.Waiting([], turns, productId);
      Concat(batches) + rest == MarketRuns.Enqueued(turns, productId) && forall i :: 0 <= i < |batches| ==> batches[i] != []
  {
    var batches := MarketRuns.Batches([], turns, productId);
    MarketRuns.BatchesPartition([], turns, productId);
    assert [] + MarketRuns.Enqueued(turns, productId) == MarketRuns.Enqueued(turns, productId);
    assert forall i :: 0 <= i < |batches| ==> batches[i] in batches;
  }

  lemma LastViewIsBook(arranged: seq<seq<ProductChange>>)
    ensures var views := MarketRuns.Views(EmptyBook, arranged);
      ApplyAll(EmptyBook, Concat(arranged)) == if views == [] then EmptyBook else views[|views| - 1]
  {
    if arranged != [] {
      MarketRuns.ViewAt(EmptyBook, arranged, |arranged| - 1);
      assert arranged[..|arranged|] == arranged;
    }
  }

  /** View i is the exchange's true book at the head of the entry ks[i], and the changes up to that
      entry are exactly those of the batches up to i. */
  ghost predicate Shows(x: History, productId: string, es: seq<Entry>, batches: seq<seq<ProductChange>>, views: seq<Book>, ks: seq<nat>) {
    && |ks| == |views| <= |batches|
    && forall i :: 0 <= i < |ks| ==> TrueAt(x, es, ks[i], views[i]) && TranslateAll(productId, es[..ks[i] + 1]) == Concat(batches[..i + 1])
  }

  lemma {:induction false} ViewsAreTrue(x: History, productId: string, es: seq<Entry>, batches: seq<seq<ProductChange>>, arranged: seq<seq<ProductChange>>, n: nat)
    returns (ks: seq<nat>)
    requires x.Valid() && SoundLog(x, es) && Epochs(es)
    requires KeepsAll(arranged, batches) && Concat(batches) <= TranslateAll(productId, es)
    requires forall j :: 0 <= j < |batches| ==> batches[j] != []
    requires n <= |batches|
    ensures Shows(x, productId, es, batches, MarketRuns.Views(EmptyBook, arranged)[..n], ks)
    decreases n
  {
    var views := MarketRuns.Views(EmptyBook, arranged);
    if n == 0 {
      ks := [];
    } else {
      var before := ViewsAreTrue(x, productId, es, batches, arranged, n - 1);
      var k := BatchesAreTrue(x, productId, es, batches, arranged, n);
      MarketRuns.ViewAt(EmptyBook, arranged, n - 1);
      assert arranged[..n - 1 + 1] == arranged[..n] && batches[..n - 1 + 1] == batches[..n];
      ShowsOneMore(x, productId, es, batches, views, n, before, k);
      ks := before + [k];
    }
  }

  lemma ShowsOneMore(x: History, productId: string, es: seq<Entry>, batches: seq<seq<ProductChange>>, views: seq<Book>, n: nat, ks: seq<nat>, k: nat)
    requires 0 < n <= |views| && n <= |batches| && Shows(x, productId, es, batches, views[..n - 1], ks)
    requires TrueAt(x, es, k, views[n - 1]) && TranslateAll(productId, es[..k + 1]) == Concat(batches[..n])
    ensures Shows(x, productId, es, batches, views[..n], ks + [k])
  {
    var longer := ks + [k];
    forall i | 0 <= i < n
      ensures TrueAt(x, es, longer[i], views[..n][i]) && TranslateAll(productId, es[..longer[i] + 1]) == Concat(batches[..i + 1])
    {
      if i < n - 1 {
        assert longer[i] == ks[i] && views[..n][i] == views[..n - 1][i];
      }
    }
  }

  /** Entries that are named by what has gone into more and more batches come one after another. */
  lemma EntriesIncrease(x: History, productId: string, es: seq<Entry>, batches: seq<seq<ProductChange>>, views: seq<Book>, ks: seq<nat>)
    requires Shows(x, productId, es, batches, views, ks)
    requires forall i :: 0 <= i < |batches| ==> batches[i] != []
    ensures forall i, j :: 0 <= i < j < |ks| ==> ks[i] < ks[j] < |es|
  {
    forall i, j | 0 <= i < j < |ks| ensures ks[i] < ks[j] < |es| {
      assert TrueAt(x, es, ks[i], views[i]) && TrueAt(x, es, ks[j], views[j]);
      ConcatGrows(batches, i + 1, j + 1);
      if ks[j] <= ks[i] {
        TranslateGrows(productId, es, ks[j] + 1, ks[i] + 1);
      }
    }
  }

  /** The same for the views of a product of the market whose changes are those of the entries. */
  lemma ProductShows(x: History, es: seq<Entry>, productId: string, s: MarketState, turns: seq<MarketRuns.MarketStep>)
    returns (ks: seq<nat>)
    requires x.Valid() && SoundLog(x, es) && Epochs(es)
    requires Followed(s, turns, productId) && OrderKept(s, turns, productId)
    requires MarketRuns.Enqueued(turns, productId) <= TranslateAll(productId, es)
    ensures productId in MarketRuns.Run(s, turns).products
    ensures var p := MarketRuns.Run(s, turns).products[productId];
      var batches := MarketRuns.Batches([], turns, productId);
      && |p.published| == |batches| && Shows(x, productId, es, batches, p.published, ks)
      && p.book == (if p.published == [] then EmptyBook else p.published[|p.published| - 1])
    ensures forall i, j :: 0 <= i < j < |ks| ==> ks[i] < ks[j] < |es|
  {
    var batches, arranged, rest := MarketSide(s, turns, productId);
    PrefixOfPrefix(Concat(batches), rest, TranslateAll(productId, es));
    LastViewIsBook(arranged);
    var views := MarketRuns.Views(EmptyBook, arranged);
    ks := ViewsAreTrue(x, productId, es, batches, arranged, |batches|);
    assert views[..|batches|] == views;
    EntriesIncrease(x, productId, es, batches, views, ks);
  }

  /** A product of the market whose changes are those of a faithful feed run, in the order in which
      they were handed over, publishes one book per batch, if each batch is taken in an order that keeps.
      The book published for batch i is the exchange's true book at the head of the entry ks[i], the
      one whose change is the last of that batch: so each publication is of a later entry than the one
      before, and of a book that is no older if the feed run never goes back. This holds under every
      interleaving of arrivals, turns of the handler, and other products. */
  lemma PublishedBooksAreTrue(x: History, steps: seq<FeedProduct.Step>, productId: string, s: MarketState, turns: seq<MarketRuns.MarketStep>)
    returns (ks: seq<nat>)
    requires x.Valid() && Faithful(x, FeedProduct.Initial, steps)
    requires Followed(s, turns, productId) && OrderKept(s, turns, productId)
    requires MarketRuns.Enqueued(turns, productId) <= TranslateAll(productId, FeedProduct.Run(FeedProduct.Initial, steps).delivered)
    ensures productId in MarketRuns.Run(s, turns).products
    ensures var p := MarketRuns.Run(s, turns).products[productId];
      var es := FeedProduct.Run(FeedProduct.Initial, steps).delivered;
      var batches := MarketRuns.Batches([], turns, productId);
      && |p.published| == |batches| && Shows(x, productId, es, batches, p.published, ks)
      && p.book == (if p.published == [] then EmptyBook else p.published[|p.published| - 1])
      && (forall i, j :: 0 <= i < j < |ks| ==> ks[i] < ks[j] < |es|)
      && (NoRegress.Current(NoRegress.Start, steps) ==> forall i, j :: 0 <= i < j < |ks| ==> Head(es[ks[i]]) <= Head(es[ks[j]]))
  {
    var es := FeedProduct.Run(FeedProduct.Initial, steps).delivered;
    DeliveredIsSound(x, steps);
    ks := ProductShows(x, es, productId, s, turns);
    if NoRegress.Current(NoRegress.Start, steps) {
      HeadsNeverDecrease(steps, es, ks);
    }
  }

  lemma HeadsNeverDecrease(steps: seq<FeedProduct.Step>, es: seq<Entry>, ks: seq<nat>)
    requires NoRegress.Current(NoRegress.Start, steps) && es == FeedProduct.Run(FeedProduct.Initial, steps).delivered
    requires forall i, j :: 0 <= i < j < |ks| ==> ks[i] < ks[j] < |es|
    ensures forall i, j :: 0 <= i < j < |ks| ==> ks[i] < ks[j] && Head(es[ks[i]]) <= Head(es[ks[j]])
  {
    forall i, j | 0 <= i < j < |ks| ensures ks[i] < ks[j] && Head(es[ks[i]]) <= Head(es[ks[j]]) {
      NoRegress.BookNeverGoesBack(steps, ks[i], ks[j]);
    }
  }

  lemma PrefixOfPrefix(xs: seq<ProductChange>, ys: seq<ProductChange>, zs: seq<ProductChange>)
    requires xs + ys <= zs
    ensures xs <= zs
  {
    assert forall i :: 0 <= i < |xs| ==> xs[i] == (xs + ys)[i] == zs[i];
  }

  lemma SameBatchesNonempty(arranged: seq<seq<ProductChange>>, batches: seq<seq<ProductChange>>)
    requires Rearranges(arranged, batches) && forall i :: 0 <= i < |batches| ==> batches[i] != []
    ensures forall i :: 0 <= i < |arranged| ==> arranged[i] != []
  {
    forall i | 0 <= i < |arranged| ensures arranged[i] != [] {
      MarketRuns.SameCountEmpty(arranged[i], batches[i]);
    }
  }

  /** When everything handed over has been taken, the product's book is the exchange's at the head
      of the last entry. */
  lemma CaughtUp(x: History, steps: seq<FeedProduct.Step>, productId: string, s: MarketState, turns: seq<MarketRuns.MarketStep>)
    requires x.Valid() && Faithful(x, FeedProduct.Initial, steps)
    requires Followed(s, turns, productId) && OrderKept(s, turns, productId)
    requires var es := FeedProduct.Run(FeedProduct.Initial, steps).delivered;
      es != [] && MarketRuns.Enqueued(turns, productId) == TranslateAll(productId, es)
    requires Of(MarketRuns.Run(s, turns).pending, productId) == []
    ensures productId in MarketRuns.Run(s, turns).products
    ensures var es := FeedProduct.Run(FeedProduct.Initial, steps).delivered;
      var b := MarketRuns.Run(s, turns).products[productId].book;
      && Head(es[|es| - 1]) <= |x.events|
      && DistinctBook(b) && AsMap(b) == x.At(Head(es[|es| - 1]))
  {
    var es := FeedProduct.Run(FeedProduct.Initial, steps).delivered;
    DeliveredIsSound(x, steps);
    var batches, arranged, rest := MarketSide(s, turns, productId);
    MarketRuns.SameCountEmpty(rest, []);
    assert Concat(batches) + [] == Concat(batches);
    LogFollows(x, productId, es, map[]);
    AsMapEmpty();
    BatchesOnVectors(EmptyBook, batches, arranged);
  }
}
