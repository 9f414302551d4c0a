/** Runs of the market: changes arriving, products coming and going, and turns of the handler, in
    any interleaving. */
module MarketRuns {
  import opened OrderBooks
  import opened ProductChanges
  import opened Reordering
  import opened Markets

  datatype MarketStep =
    | Enqueue(pc: ProductChange, arranged: seq<ProductChange>)
    | Turn
    | Subscribe(id: string)
    | Unsubscribe(id: string)

  function Next(s: MarketState, step: MarketStep): MarketState {
    match step
    case Enqueue(_, arranged) => s.(pending := arranged)
    case Turn => Drained(s)
    case Subscribe(id) => Subscribed(s, id)
    case Unsubscribe(id) => s.(products := s.products - {id})
  }

  function Run(s: MarketState, steps: seq<MarketStep>): MarketState
    decreases steps
  {
    if steps == [] then s else Run(Next(s, steps[0]), steps[1..])
  }

  /** The multimap gains exactly the change that arrives. */
  ghost predicate Arriving(s: MarketState, steps: seq<MarketStep>)
    decreases steps
  {
    steps == []
    || (&& (steps[0].Enqueue? ==> multiset(steps[0].arranged) == multiset(s.pending) + multiset{steps[0].pc})
        && Arriving(Next(s, steps[0]), steps[1..]))
  }

  /** In addition, this product is never removed. */
  ghost predicate Proper(s: MarketState, steps: seq<MarketStep>, id: string) {
    Arriving(s, steps) && Unsubscribe(id) !in steps
  }

  /** The changes of a product, in the order in which they arrived. */
  function Enqueued(steps: seq<MarketStep>, id: string): seq<ProductChange> {
    if steps == [] then []
    else (if steps[0].Enqueue? && steps[0].pc.productId == id then [steps[0].pc] else []) + Enqueued(steps[1..], id)
  }

  /** The same changes, cut at the turns of the handler, and what came after the last turn. */
  function Batches(waiting: seq<ProductChange>, steps: seq<MarketStep>, id: string): seq<seq<ProductChange>>
    decreases steps
  {
    if steps == [] then []
    else if steps[0].Turn? then (if waiting == [] then [] else [waiting]) + Batches([], steps[1..], id)
    else Batches(waiting + Enqueued([steps[0]], id), steps[1..], id)
  }

  function Waiting(waiting: seq<ProductChange>, steps: seq<MarketStep>, id: string): seq<ProductChange>
    decreases steps
  {
    if steps == [] then waiting
    else if steps[0].Turn? then Waiting([], steps[1..], id)
    else Waiting(waiting + Enqueued([steps[0]], id), steps[1..], id)
  }

  /** The changes of a product as the turns of the handler take them, in the order of iteration. */
  function Taken(s: MarketState, steps: seq<MarketStep>, id: string): seq<seq<ProductChange>>
    decreases steps
  {
    if steps == [] then []
    else (if steps[0].Turn? && Of(s.pending, id) != [] then [Of(s.pending, id)] else []) + Taken(Next(s, steps[0]), steps[1..], id)
  }

  lemma EnqueuedCons(step: MarketStep, rest: seq<MarketStep>, id: string)
    ensures Enqueued([step], id) == if step.Enqueue? && step.pc.productId == id then [step.pc] else []
    ensures Enqueued([step] + rest, id) == Enqueued([step], id) + Enqueued(rest, id)
  {
    assert [step][1..] == [] && ([step] + rest)[1..] == rest;
  }

  /** The batches are the arrived changes, nothing lost, repeated or moved. */
  lemma {:induction false} BatchesPartition(waiting: seq<ProductChange>, steps: seq<MarketStep>, id: string)
    ensures Concat(Batches(waiting, steps, id)) + Waiting(waiting, steps, id) == waiting + Enqueued(steps, id)
    ensures forall b :: b in Batches(waiting, steps, id) ==> b != []
    decreases steps
  {
    if steps == [] {
      assert waiting + Enqueued(steps, id) == waiting;
    } else {
      var step, rest := steps[0], steps[1..];
      assert steps == [step] + rest;
      EnqueuedCons(step, rest, id);
      if step.Turn? {
        BatchesPartition([], rest, id);
        var later := Batches([], rest, id);
        assert Enqueued([step], id) == [] && [] + later == later;
        if waiting != [] {
          assert ([waiting] + later)[1..] == later;
          assert waiting + Concat(later) + Waiting([], rest, id) == waiting + (Concat(later) + Waiting([], rest, id));
        }
        assert [] + Enqueued(rest, id) == Enqueued(rest, id);
      } else {
        BatchesPartition(waiting + Enqueued([step], id), rest, id);
      }
    }
  }

  /** Iterating the multimap in another order permutes the changes of each product. */
  lemma {:induction false} OfCounts(pcs: seq<ProductChange>, id: string, pc: ProductChange)
    ensures multiset(Of(pcs, id))[pc] == if pc.productId == id then multiset(pcs)[pc] else 0
  {
    if pcs != [] {
      OfCounts(pcs[1..], id, pc);
      assert pcs == [pcs[0]] + pcs[1..];
    }
  }

  lemma EnqueueCounts(before: seq<ProductChange>, pc: ProductChange, arranged: seq<ProductChange>, id: string)
    requires multiset(arranged) == multiset(before) + multiset{pc}
    ensures multiset(Of(arranged, id)) == multiset(Of(before, id)) + if pc.productId == id then multiset{pc} else multiset{}
  {
    forall d: ProductChange
      ensures multiset(Of(arranged, id))[d] == (multiset(Of(before, id)) + if pc.productId == id then multiset{pc} else multiset{})[d]
    {
      OfCounts(arranged, id, d);
      OfCounts(before, id, d);
    }
  }

  /** The changes of a product that turns of the handler applied, or dropped for want of the product. */
  function Handled(s: MarketState, steps: seq<MarketStep>, id: string, subscribed: bool): multiset<ProductChange>
    decreases steps
  {
    if steps == [] then multiset{}
    else
      (if steps[0].Turn? && (id in s.products) == subscribed then multiset(Of(s.pending, id)) else multiset{})
      + Handled(Next(s, steps[0]), steps[1..], id, subscribed)
  }

  lemma AccountsAddUp<T>(a: multiset<T>, b: multiset<T>, mid: multiset<T>, c: multiset<T>, end: multiset<T>, applied: multiset<T>, dropped: multiset<T>)
    requires a + b == mid && mid + c == end + applied + dropped
    ensures a + (b + c) == end + applied + dropped
  {}

  lemma TurnAddsUp<T>(now: multiset<T>, c: multiset<T>, end: multiset<T>, applied: multiset<T>, dropped: multiset<T>)
    requires c == end + applied + dropped
    ensures now + c == end + (now + applied) + dropped == end + applied + (now + dropped)
  {}

  lemma EnqueuedCounts(steps: seq<MarketStep>, id: string)
    requires steps != []
    ensures multiset(Enqueued(steps, id)) == multiset(Enqueued([steps[0]], id)) + multiset(Enqueued(steps[1..], id))
  {
    assert steps == [steps[0]] + steps[1..];
    EnqueuedCons(steps[0], steps[1..], id);
  }

  lemma HandledLater(s: MarketState, steps: seq<MarketStep>, id: string, subscribed: bool)
    requires steps != []
    ensures Handled(s, steps, id, subscribed)
         == if steps[0].Turn? && (id in s.products) == subscribed
            then multiset(Of(s.pending, id)) + Handled(Next(s, steps[0]), steps[1..], id, subscribed)
            else Handled(Next(s, steps[0]), steps[1..], id, subscribed)
  {}

  /** The accounts of a run add up. */
  ghost predicate Accounted(s: MarketState, steps: seq<MarketStep>, id: string) {
    multiset(Of(s.pending, id)) + multiset(Enqueued(steps, id))
      == multiset(Of(Run(s, steps).pending, id)) + Handled(s, steps, id, true) + Handled(s, steps, id, false)
  }

  lemma TurnIsAccounted(s: MarketState, steps: seq<MarketStep>, id: string)
    requires steps != [] && steps[0].Turn? && Accounted(Next(s, steps[0]), steps[1..], id)
    ensures Accounted(s, steps, id)
  {
    var s', rest := Next(s, steps[0]), steps[1..];
    EnqueuedCons(steps[0], [], id);
    EnqueuedCounts(steps, id);
    HandledLater(s, steps, id, true);
    HandledLater(s, steps, id, false);
    TurnAddsUp(multiset(Of(s.pending, id)), multiset(Enqueued(rest, id)),
               multiset(Of(Run(s', rest).pending, id)), Handled(s', rest, id, true), Handled(s', rest, id, false));
  }

  lemma OtherIsAccounted(s: MarketState, steps: seq<MarketStep>, id: string)
    requires Arriving(s, steps)
    requires steps != [] && !steps[0].Turn? && Accounted(Next(s, steps[0]), steps[1..], id)
    ensures Accounted(s, steps, id)
  {
    var s', rest, got := Next(s, steps[0]), steps[1..], Enqueued([steps[0]], id);
    EnqueuedCounts(steps, id);
    HandledLater(s, steps, id, true);
    HandledLater(s, steps, id, false);
    WaitingStep(s, Of(s.pending, id), steps[0], id);
    assert multiset(Of(s.pending, id) + got) == multiset(Of(s.pending, id)) + multiset(got);
    AccountsAddUp(multiset(Of(s.pending, id)), multiset(got), multiset(Of(s'.pending, id)), multiset(Enqueued(rest, id)),
                  multiset(Of(Run(s', rest).pending, id)), Handled(s', rest, id, true), Handled(s', rest, id, false));
  }

  /** Over every run, products coming and going as they like: each change of a product that was
      pending or arrived is pending, was applied in one turn, or was dropped in one turn at which
      there was no such product. */
  lemma {:induction false} EveryChangeIsAccounted(s: MarketState, steps: seq<MarketStep>, id: string)
    requires Arriving(s, steps)
    ensures multiset(Of(s.pending, id)) + multiset(Enqueued(steps, id))
         == multiset(Of(Run(s, steps).pending, id)) + Handled(s, steps, id, true) + Handled(s, steps, id, false)
    decreases steps
  {
    if steps != [] {
      EveryChangeIsAccounted(Next(s, steps[0]), steps[1..], id);
      if steps[0].Turn? {
        TurnIsAccounted(s, steps, id);
      } else {
        OtherIsAccounted(s, steps, id);
      }
    }
  }

  /** The state of a product after batch upon batch. */
  function AfterAll(p: ProductState, batches: seq<seq<ProductChange>>): ProductState
    decreases batches
  {
    if batches == [] then p else AfterAll(After(p, batches[0]), batches[1..])
  }

  /** Putting one more batch in front. */
  lemma RearrangesCons(batch: seq<ProductChange>, waiting: seq<ProductChange>,
                       later: seq<seq<ProductChange>>, batches: seq<seq<ProductChange>>, p: ProductState)
    requires Rearranges(later, batches) && multiset(batch) == multiset(waiting)
    ensures Rearranges([batch] + later, [waiting] + batches)
    ensures AfterAll(p, [batch] + later) == AfterAll(After(p, batch), later)
  {
    assert ([batch] + later)[1..] == later;
    var xs, ys := [batch] + later, [waiting] + batches;
    forall i | 0 <= i < |ys| ensures multiset(xs[i]) == multiset(ys[i]) {
      if i > 0 {
        assert xs[i] == later[i - 1] && ys[i] == batches[i - 1];
      }
    }
  }

  lemma SameCountEmpty(xs: seq<ProductChange>, ys: seq<ProductChange>)
    requires multiset(xs) == multiset(ys)
    ensures xs == [] <==> ys == []
  {
    assert |multiset(xs)| == |xs| && |multiset(ys)| == |ys|;
  }

  /** The changes that wait for a product, after a step that is no turn. */
  lemma WaitingStep(s: MarketState, waiting: seq<ProductChange>, step: MarketStep, id: string)
    requires !step.Turn? && multiset(waiting) == multiset(Of(s.pending, id))
    requires step.Enqueue? ==> multiset(step.arranged) == multiset(s.pending) + multiset{step.pc}
    ensures multiset(waiting + Enqueued([step], id)) == multiset(Of(Next(s, step).pending, id))
  {
    var added := Enqueued([step], id);
    EnqueuedCons(step, [], id);
    assert multiset(waiting + added) == multiset(waiting) + multiset(added);
    if step.Enqueue? {
      EnqueueCounts(s.pending, step.pc, step.arranged, id);
    }
  }

  lemma NextAt(s: MarketState, step: MarketStep, id: string)
    requires id in s.products && step != Unsubscribe(id)
    ensures id in Next(s, step).products
    ensures Next(s, step).products[id] == if step.Turn? then After(s.products[id], Of(s.pending, id)) else s.products[id]
    ensures step.Turn? ==> Next(s, step).pending == []
  {}

  lemma BatchesTurn(waiting: seq<ProductChange>, steps: seq<MarketStep>, id: string)
    requires steps != [] && steps[0].Turn?
    ensures Batches(waiting, steps, id) == if waiting == [] then Batches([], steps[1..], id) else [waiting] + Batches([], steps[1..], id)
  {}

  lemma TakenNext(s: MarketState, steps: seq<MarketStep>, id: string)
    requires steps != []
    ensures Taken(s, steps, id) == if steps[0].Turn? && Of(s.pending, id) != [] then [Of(s.pending, id)] + Taken(Next(s, steps[0]), steps[1..], id)
                                   else Taken(Next(s, steps[0]), steps[1..], id)
  {}

  /** Over every run, a product takes its batches in order, each rearranged somehow, and what it has
      not taken is waiting. The batches and what waits are the changes that arrived, in order: every
      change is applied exactly once or still pending. */
  lemma {:induction false} ProductTakesBatches(s: MarketState, waiting: seq<ProductChange>, steps: seq<MarketStep>, id: string)
    requires id in s.products && Proper(s, steps, id) && multiset(waiting) == multiset(Of(s.pending, id))
    ensures Rearranges(Taken(s, steps, id), Batches(waiting, steps, id))
    ensures Concat(Batches(waiting, steps, id)) + Waiting(waiting, steps, id) == waiting + Enqueued(steps, id)
    ensures id in Run(s, steps).products && Run(s, steps).products[id] == AfterAll(s.products[id], Taken(s, steps, id))
    ensures multiset(Waiting(waiting, steps, id)) == multiset(Of(Run(s, steps).pending, id))
    decreases steps
  {
    BatchesPartition(waiting, steps, id);
    if steps != [] {
      var s', rest := Next(s, steps[0]), steps[1..];
      assert steps[0] in steps && Proper(s', rest, id);
      NextAt(s, steps[0], id);
      TakenNext(s, steps, id);
      if steps[0].Turn? {
        var batch := Of(s.pending, id);
        ProductTakesBatches(s', [], rest, id);
        BatchesTurn(waiting, steps, id);
        SameCountEmpty(waiting, batch);
        if waiting != [] {
          RearrangesCons(batch, waiting, Taken(s', rest, id), Batches([], rest, id), s.products[id]);
        }
      } else {
        WaitingStep(s, waiting, steps[0], id);
        ProductTakesBatches(s', waiting + Enqueued([steps[0]], id), rest, id);
      }
    }
  }

  /** The books after each batch. */
  function Views(b: Book, batches: seq<seq<ProductChange>>): (views: seq<Book>)
    ensures |views| == |batches|
    decreases batches
  {
    if batches == [] then [] else [ApplyAll(b, batches[0])] + Views(ApplyAll(b, batches[0]), batches[1..])
  }

  lemma ViewsCons(p: ProductState, first: seq<ProductChange>, rest: seq<seq<ProductChange>>)
    requires first != []
    ensures p.published + Views(p.book, [first] + rest) == After(p, first).published + Views(After(p, first).book, rest)
    ensures ApplyAll(p.book, Concat([first] + rest)) == ApplyAll(After(p, first).book, Concat(rest))
  {
    assert ([first] + rest)[1..] == rest;
    ApplyAllConcat(p.book, first, Concat(rest));
    var view, later := ApplyAll(p.book, first), Views(ApplyAll(p.book, first), rest);
    assert p.published + ([view] + later) == (p.published + [view]) + later;
  }

  /** One view is published for each batch, and no other. */
  lemma {:induction false} OneViewPerBatch(p: ProductState, batches: seq<seq<ProductChange>>)
    requires forall i :: 0 <= i < |batches| ==> batches[i] != []
    ensures AfterAll(p, batches) == ProductState(ApplyAll(p.book, Concat(batches)), p.published + Views(p.book, batches))
    decreases batches
  {
    if batches != [] {
      OneViewPerBatch(After(p, batches[0]), batches[1..]);
      ViewsCons(p, batches[0], batches[1..]);
      assert [batches[0]] + batches[1..] == batches;
    }
  }

  /** A view is the book after all the changes up to that batch, never one inside a batch. */
  lemma {:induction false} ViewAt(b: Book, batches: seq<seq<ProductChange>>, i: nat)
    requires i < |batches|
    ensures Views(b, batches)[i] == ApplyAll(b, Concat(batches[..i + 1]))
    decreases i
  {
    var first, rest := batches[0], batches[1..];
    assert batches[..i + 1][1..] == rest[..i];
    ApplyAllConcat(b, first, Concat(rest[..i]));
    if i > 0 {
      ViewAt(ApplyAll(b, first), rest, i - 1);
    }
  }
}
