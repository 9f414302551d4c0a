/** Products that come and go during a run of the market. */
module Subscriptions {
  import opened OrderBooks
  import opened ProductChanges
  import opened Reordering
  import opened Markets
  import opened MarketRuns
  import MarketTurns

  /** A product is subscribed at step i and not removed after that. */
  ghost predicate StaysFrom(steps: seq<MarketStep>, i: nat, id: string)
    requires i < |steps|
  {
    steps[i] == Subscribe(id) && Unsubscribe(id) !in steps[i..]
  }

  lemma StaysFromLater(steps: seq<MarketStep>, id: string)
    requires steps != []
    ensures (exists i :: 0 <= i < |steps| && StaysFrom(steps, i, id))
       <==> ((steps[0] == Subscribe(id) && Unsubscribe(id) !in steps) || exists i :: 0 <= i < |steps[1..]| && StaysFrom(steps[1..], i, id))
  {
    assert steps[0..] == steps;
    if i :| 0 < i < |steps| && StaysFrom(steps, i, id) {
      assert steps[1..][i - 1..] == steps[i..] && StaysFrom(steps[1..], i - 1, id);
    }
    if i :| 0 <= i < |steps[1..]| && StaysFrom(steps[1..], i, id) {
      assert steps[1..][i..] == steps[i + 1..] && StaysFrom(steps, i + 1, id);
    }
    assert StaysFrom(steps, 0, id) <==> steps[0] == Subscribe(id) && Unsubscribe(id) !in steps;
  }

  /** After any run a product is there exactly when it was subscribed in it and not removed after that,
      or was there before and was not removed. */
  lemma {:induction false} ThereIff(s: MarketState, steps: seq<MarketStep>, id: string)
    ensures id in Run(s, steps).products
       <==> ((exists i :: 0 <= i < |steps| && StaysFrom(steps, i, id)) || (id in s.products && Unsubscribe(id) !in steps))
    decreases steps
  {
    if steps != [] {
      StaysFromLater(steps, id);
      ThereIff(Next(s, steps[0]), steps[1..], id);
      assert steps == [steps[0]] + steps[1..];
    }
  }

  lemma {:induction false} TakenNonempty(s: MarketState, steps: seq<MarketStep>, id: string)
    ensures forall i :: 0 <= i < |Taken(s, steps, id)| ==> Taken(s, steps, id)[i] != []
    decreases steps
  {
    if steps != [] {
      TakenNonempty(Next(s, steps[0]), steps[1..], id);
      TakenNext(s, steps, id);
    }
  }

  /** A product that is subscribed when it is not there, and not removed after that, starts with an empty
      book and takes the batches of its changes from then on, those that were pending among them: each
      applied once, in order, and published. */
  lemma SubscriptionStarts(s: MarketState, before: seq<MarketStep>, after: seq<MarketStep>, id: string)
    requires Arriving(s, before + [Subscribe(id)] + after) && Unsubscribe(id) !in after
    requires id !in Run(s, before).products
    ensures var t, u := Run(s, before), Run(s, before + [Subscribe(id)] + after);
      var taken := Taken(Next(t, Subscribe(id)), after, id);
      && Rearranges(taken, Batches(Of(t.pending, id), after, id))
      && multiset(Waiting(Of(t.pending, id), after, id)) == multiset(Of(u.pending, id))
      && id in u.products && u.products[id] == ProductState(ApplyAll(EmptyBook, Concat(taken)), Views(EmptyBook, taken))
  {
    var t := Run(s, before);
    MarketTurns.RunConcat(s, before + [Subscribe(id)], after);
    MarketTurns.RunConcat(s, before, [Subscribe(id)]);
    MarketTurns.RunOne(t, Subscribe(id));
    var t' := Next(t, Subscribe(id));
    var taken := Taken(t', after, id);
    ProductTakesBatches(t', Of(t.pending, id), after, id);
    TakenNonempty(t', after, id);
    OneViewPerBatch(ProductState(EmptyBook, []), taken);
    assert [] + Views(EmptyBook, taken) == Views(EmptyBook, taken);
  }

  // Products that come and go do not disturb the others.

  /** The run without the subscriptions and removals of other products. */
  function Concerning(steps: seq<MarketStep>, id: string): seq<MarketStep> {
    if steps == [] then []
    else (if (steps[0].Subscribe? || steps[0].Unsubscribe?) && steps[0].id != id then [] else [steps[0]]) + Concerning(steps[1..], id)
  }

  ghost predicate SameFor(s: MarketState, s': MarketState, id: string) {
    s.pending == s'.pending && (id in s.products <==> id in s'.products) && (id in s.products ==> s.products[id] == s'.products[id])
  }

  lemma {:induction false} OthersComeAndGo(s: MarketState, s': MarketState, steps: seq<MarketStep>, id: string)
    requires SameFor(s, s', id)
    ensures SameFor(Run(s, steps), Run(s', Concerning(steps, id)), id)
    decreases steps
  {
    if steps != [] {
      var step, rest := steps[0], Concerning(steps[1..], id);
      if (step.Subscribe? || step.Unsubscribe?) && step.id != id {
        assert [] + rest == rest;
        OthersComeAndGo(Next(s, step), s', steps[1..], id);
      } else {
        assert ([step] + rest)[1..] == rest;
        OthersComeAndGo(Next(s, step), Next(s', step), steps[1..], id);
      }
    }
  }
}
