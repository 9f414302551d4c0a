/** Schedule independence: on a contiguous feed and one full order book, every interleaving of the
    three threads ends in the same book. */
module Schedule {
  import opened OrderBooks
  import opened ProductChanges
  import opened Messages
  import opened FeedProduct
  import opened Invariants

  ghost predicate Contiguous(ms: seq<FeedMessage>, first: nat) {
    forall i :: 0 <= i < |ms| ==> ms[i].sequence == first + i
  }

  /** The messages numbered above n. */
  function Above(ms: seq<FeedMessage>, n: Sequence): seq<FeedMessage> {
    if ms == [] then [] else (if ms[0].sequence > n then [ms[0]] else []) + Above(ms[1..], n)
  }

  /** The messages played on a book in order. */
  function EffectAll(b: Book, ms: seq<FeedMessage>): Book
    decreases ms
  {
    if ms == [] then b else EffectAll(Effect(b, ms[0]), ms[1..])
  }

  /** Every reply of the run is this one. */
  ghost predicate OnlyReply(steps: seq<Step>, n: Sequence, book: Book) {
    forall i :: 0 <= i < |steps| && steps[i].FetchComplete? ==> steps[i].reply == Reply(Some(n), Some(book))
  }

  lemma {:induction false} EffectAllConcat(b: Book, xs: seq<FeedMessage>, ys: seq<FeedMessage>)
    ensures EffectAll(b, xs + ys) == EffectAll(EffectAll(b, xs), ys)
    decreases xs
  {
    if xs == [] {
      assert xs + ys == ys;
    } else {
      assert (xs + ys)[1..] == xs[1..] + ys;
      EffectAllConcat(Effect(b, xs[0]), xs[1..], ys);
    }
  }

  lemma {:induction false} AboveSnoc(ms: seq<FeedMessage>, m: FeedMessage, n: Sequence)
    ensures Above(ms + [m], n) == Above(ms, n) + if m.sequence > n then [m] else []
    decreases ms
  {
    if ms == [] {
      assert ms + [m] == [m] && [m][1..] == [];
    } else {
      assert (ms + [m])[1..] == ms[1..] + [m];
      AboveSnoc(ms[1..], m, n);
    }
  }

  lemma {:induction false} NewerIsAbove(ms: seq<FeedMessage>, n: Sequence)
    ensures Newer(AllLive(ms), n) == AllLive(Above(ms, n))
    ensures MessagesIn(AllLive(ms)) == ms
    ensures forall e :: e in AllLive(ms) ==> e.Live?
  {
    if ms != [] {
      NewerIsAbove(ms[1..], n);
      var above := Above(ms[1..], n);
      assert AllLive(ms)[0] == Live(ms[0]) && AllLive(ms)[1..] == AllLive(ms[1..]);
      assert [] + above == above && ([ms[0]] + above)[1..] == above;
      assert [] + Newer(AllLive(ms[1..]), n) == Newer(AllLive(ms[1..]), n);
    }
  }

  lemma AllLiveSnoc(ms: seq<FeedMessage>, m: FeedMessage)
    ensures AllLive(ms + [m]) == AllLive(ms) + [Live(m)]
  {
    AllLiveConcat(ms, [m]);
    assert [m][1..] == [];
  }

  /** The number of the last message above n, or n, on a contiguous feed that leaves no hole above n. */
  lemma {:induction false} LastAbove(ms: seq<FeedMessage>, first: nat, n: Sequence)
    requires Contiguous(ms, first) && first <= n + 1
    ensures LastOf(AllLive(Above(ms, n)), n) == if first + |ms| - 1 > n then first + |ms| - 1 else n
    decreases |ms|
  {
    if ms != [] {
      var k := |ms| - 1;
      assert ms == ms[..k] + [ms[k]];
      LastAbove(ms[..k], first, n);
      AboveSnoc(ms[..k], ms[k], n);
      if ms[k].sequence > n {
        AllLiveSnoc(Above(ms[..k], n), ms[k]);
      } else {
        assert Above(ms, n) == Above(ms[..k], n);
      }
    }
  }

  /** Live entries, merged or not, play like their messages. */
  lemma {:induction false} LiveMeaning(b: Book, es: seq<Entry>)
    requires forall e :: e in es ==> e.Live?
    ensures PlayAll(b, es) == EffectAll(b, MessagesIn(es))
    decreases es
  {
    if es != [] {
      LiveMeaning(Play(b, es[0]), es[1..]);
      assert ([es[0].message] + MessagesIn(es[1..]))[1..] == MessagesIn(es[1..]);
    }
  }

  /** Before the book arrives: everything received waits in the queue. */
  ghost predicate Waiting(s: State, got: seq<FeedMessage>) {
    s == State(AllLive(got), 0, true, Running, [], [])
  }

  /** After it: the log is the book with the messages above its number, merged or following. */
  ghost predicate Synchronised(s: State, got: seq<FeedMessage>, first: nat, n: Sequence, book: Book) {
    var log := Log(s);
    && !s.requesting && s.fetch == Installed
    && s.last == (if first + |got| - 1 > n then first + |got| - 1 else n)
    && log != [] && log[0].Snapshot? && log[0].number == n && log[0].content == Some(book)
    && (forall e :: e in log[0].toMerge + log[1..] ==> e.Live?)
    && MessagesIn(log[0].toMerge + log[1..]) == Above(got, n)
  }

  lemma WaitingStep(s: State, got: seq<FeedMessage>, step: Step, first: nat, n: Sequence, book: Book)
    requires Waiting(s, got) && Contiguous(got, first) && first <= n + 1 && n != 0
    requires step.FetchComplete? ==> step.reply == Reply(Some(n), Some(book))
    ensures if step.FetchComplete? then Synchronised(Next(s, step), got, first, n, book) else Waiting(Next(s, step), got + Received([step]))
  {
    assert Received([step][1..]) == [];
    if step.Receive? {
      AllLiveSnoc(got, step.message);
      assert Received([step]) == [step.message];
    } else if step.FetchComplete? {
      var t := Next(s, step);
      NewerIsAbove(got, n);
      NewerIsAbove(Above(got, n), n);
      LastAbove(got, first, n);
      assert Log(t) == t.queue && t.queue[1..] == [];
      assert t.queue[0].toMerge + t.queue[1..] == t.queue[0].toMerge;
    } else {
      assert got + Received([step]) == got;
    }
  }

  lemma SynchronisedStep(s: State, got: seq<FeedMessage>, step: Step, first: nat, n: Sequence, book: Book)
    requires Synchronised(s, got, first, n, book) && n < MAX_SEQUENCE
    requires Contiguous(got + Received([step]), first) && first <= n + 1
    ensures Synchronised(Next(s, step), got + Received([step]), first, n, book)
  {
    var t, log := Next(s, step), Log(s);
    assert Received([step][1..]) == [];
    if step.Receive? {
      var m := step.message;
      assert Received([step]) == [m] && (got + Received([step]))[|got|] == m;
      AboveSnoc(got, m, n);
      if m.sequence > n {
        assert m.sequence == s.last + 1;
        assert Log(t) == log + [Live(m)];
        assert Log(t)[0].toMerge + Log(t)[1..] == (log[0].toMerge + log[1..]) + [Live(m)];
        MessagesConcat(log[0].toMerge + log[1..], [Live(m)]);
        assert [Live(m)][1..] == [];
      } else {
        assert t == s;
      }
    } else {
      assert Log(t) == log;
      assert got + Received([step]) == got;
    }
  }

  lemma {:induction false} SynchronisedRun(s: State, got: seq<FeedMessage>, steps: seq<Step>, first: nat, n: Sequence, book: Book)
    requires Synchronised(s, got, first, n, book) && n < MAX_SEQUENCE
    requires Contiguous(got + Received(steps), first) && first <= n + 1
    ensures Synchronised(Run(s, steps), got + Received(steps), first, n, book)
    decreases steps
  {
    if steps == [] {
      assert got + Received(steps) == got;
    } else {
      var now := got + Received([steps[0]]);
      RunConcat(s, [steps[0]], steps[1..]);
      assert steps == [steps[0]] + steps[1..];
      assert now + Received(steps[1..]) == got + Received(steps);
      assert forall i :: 0 <= i < |now| ==> now[i] == (got + Received(steps))[i];
      SynchronisedStep(s, got, steps[0], first, n, book);
      SynchronisedRun(Next(s, steps[0]), now, steps[1..], first, n, book);
    }
  }

  lemma {:induction false} WaitingRun(s: State, got: seq<FeedMessage>, steps: seq<Step>, first: nat, n: Sequence, book: Book)
    requires Waiting(s, got) && 0 < n < MAX_SEQUENCE
    requires Contiguous(got + Received(steps), first) && first <= n + 1
    requires OnlyReply(steps, n, book)
    ensures if FirstReply(steps) == None then Waiting(Run(s, steps), got + Received(steps))
            else Synchronised(Run(s, steps), got + Received(steps), first, n, book)
    decreases steps
  {
    if steps == [] {
      assert got + Received(steps) == got;
    } else {
      var step, rest := steps[0], steps[1..];
      var now := got + Received([step]);
      RunConcat(s, [step], rest);
      assert steps == [step] + rest;
      assert now + Received(rest) == got + Received(steps);
      assert forall i :: 0 <= i < |got| ==> got[i] == (got + Received(steps))[i];
      WaitingStep(s, got, step, first, n, book);
      if step.FetchComplete? {
        assert now == got;
        SynchronisedRun(Next(s, step), got, rest, first, n, book);
      } else {
        WaitingRun(Next(s, step), now, rest, first, n, book);
      }
    }
  }

  /** What a synchronised log does to any book: the full order book, then the messages above it. */
  lemma SynchronisedMeaning(s: State, got: seq<FeedMessage>, first: nat, n: Sequence, book: Book, productId: string, any: Book)
    requires Synchronised(s, got, first, n, book)
    ensures ApplyAll(any, TranslateAll(productId, Log(s))) == EffectAll(book, Above(got, n))
  {
    var log := Log(s);
    TranslationKeepsMeaning(any, productId, log);
    LiveMeaning(book, log[0].toMerge);
    LiveMeaning(EffectAll(book, MessagesIn(log[0].toMerge)), log[1..]);
    MessagesConcat(log[0].toMerge, log[1..]);
    EffectAllConcat(book, MessagesIn(log[0].toMerge), MessagesIn(log[1..]));
  }

  /** For a contiguous feed, one full order book of number n, and any interleaving of receiving,
      installing, taking and handing over: the product is synchronised exactly when the book has
      arrived, and then what it holds turns any book into the full order book with exactly the
      messages above n played in order. No gap is ever detected. */
  lemma ScheduleIndependence(steps: seq<Step>, first: nat, n: Sequence, book: Book, productId: string, any: Book)
    requires 0 < n < MAX_SEQUENCE && first <= n + 1
    requires Contiguous(Received(steps), first) && OnlyReply(steps, n, book)
    ensures var t := Run(Initial, steps);
      && (t.requesting <==> FirstReply(steps) == None)
      && (!t.requesting ==> ApplyAll(any, TranslateAll(productId, Log(t))) == EffectAll(book, Above(Received(steps), n)))
  {
    assert [] + Received(steps) == Received(steps);
    WaitingRun(Initial, [], steps, first, n, book);
    if FirstReply(steps) != None {
      SynchronisedMeaning(Run(Initial, steps), Received(steps), first, n, book, productId, any);
    }
  }

  /** Two interleavings of the same feed that have handed everything over leave the same book. */
  lemma SameFeedSameBook(steps: seq<Step>, steps': seq<Step>, first: nat, n: Sequence, book: Book, productId: string, any: Book)
    requires 0 < n < MAX_SEQUENCE && first <= n + 1
    requires Received(steps) == Received(steps') && Contiguous(Received(steps), first)
    requires OnlyReply(steps, n, book) && OnlyReply(steps', n, book)
    requires var t, t' := Run(Initial, steps), Run(Initial, steps');
      !t.requesting && !t'.requesting && t.batch + t.queue == t'.batch + t'.queue == []
    ensures ApplyAll(any, TranslateAll(productId, Run(Initial, steps).delivered))
         == ApplyAll(any, TranslateAll(productId, Run(Initial, steps').delivered))
  {
    var t, t' := Run(Initial, steps), Run(Initial, steps');
    assert |t.batch + t.queue| == 0 && |t'.batch + t'.queue| == 0;
    assert Log(t) == t.delivered && Log(t') == t'.delivered;
    ScheduleIndependence(steps, first, n, book, productId, any);
    ScheduleIndependence(steps', first, n, book, productId, any);
  }
}
