/** Messages that repeat the number of another one. The feed that is asked for has tickers and
    heartbeats beside the full channel, and every document with a number reaches the product. Such a
    message changes no book, but one that comes first takes the place of the message it repeats. */
module Strays {
  import opened OrderBooks
  import opened ProductChanges
  import opened MapBooks
  import opened Messages
  import opened FeedProduct
  import opened Invariants
  import opened Exchange
  import Schedule
  import Reordering

  /** A synchronised product still queues the message that it expects, after it has received another
      one, exactly when that one does not have the same number. */
  lemma ExpectedIsQueuedIff(s: State, q: FeedMessage, m: FeedMessage)
    requires !s.requesting && s.last < MAX_SEQUENCE && m.sequence == s.last + 1 && q != m
    ensures Next(Next(s, Receive(q)), Receive(m)).queue == s.queue + [Live(m)] <==> q.sequence != s.last + 1
  {
    if q.sequence == s.last + 1 {
      assert Next(Next(s, Receive(q)), Receive(m)).queue == s.queue + [Live(q)];
      assert (s.queue + [Live(q)])[|s.queue|] != (s.queue + [Live(m)])[|s.queue|];
    }
  }

  lemma {:induction false} AboveAll(ms: seq<FeedMessage>, first: nat, n: Sequence)
    requires Schedule.Contiguous(ms, first) && n < first
    ensures Schedule.Above(ms, n) == ms
  {
    if ms != [] {
      assert forall i :: 0 <= i < |ms[1..]| ==> ms[1..][i] == ms[i + 1];
      AboveAll(ms[1..], first + 1, n);
      assert ms == [ms[0]] + ms[1..];
    }
  }

  /** The product has taken a contiguous feed into its log above the last number, and found no gap. */
  ghost predicate Took(s: State, t: State, ms: seq<FeedMessage>, first: nat) {
    && !t.requesting && t.last == (if first + |ms| - 1 > s.last then first + |ms| - 1 else s.last)
    && Log(t) == Log(s) + AllLive(Schedule.Above(ms, s.last))
  }

  /** What a contiguous feed adds above the last number, with its first message in front. */
  lemma AboveCons(m: FeedMessage, ms: seq<FeedMessage>, last: Sequence)
    requires Schedule.Contiguous([m] + ms, m.sequence) && m.sequence <= last + 1
    ensures Schedule.Contiguous(ms, m.sequence + 1)
    ensures AllLive(Schedule.Above([m] + ms, last))
         == if m.sequence <= last then AllLive(Schedule.Above(ms, last)) else [Live(m)] + AllLive(Schedule.Above(ms, m.sequence))
  {
    assert ([m] + ms)[1..] == ms;
    assert forall i :: 0 <= i < |ms| ==> ms[i] == ([m] + ms)[i + 1];
    var above := Schedule.Above(ms, last);
    if m.sequence <= last {
      assert [] + above == above;
    } else {
      AboveAll(ms, m.sequence + 1, last);
      AboveAll(ms, m.sequence + 1, m.sequence);
      assert ([m] + ms)[0] == m;
    }
  }

  lemma StillSynchronised(s: State, step: Step)
    requires !s.requesting && s.fetch == Installed && !step.Receive?
    ensures var t := Next(s, step); !t.requesting && t.fetch == Installed && t.last == s.last && Log(t) == Log(s)
  {}

  lemma ReceiveOnTime(s: State, m: FeedMessage)
    requires !s.requesting && m.sequence <= s.last + 1 && (s.last < MAX_SEQUENCE || m.sequence == s.last + 1)
    ensures var t := Next(s, Receive(m));
      if m.sequence <= s.last then t == s
      else !t.requesting && t.fetch == s.fetch && t.last == m.sequence && Log(t) == Log(s) + [Live(m)]
  {
    assert m.sequence > s.last ==> Log(Next(s, Receive(m))) == Log(s) + [Live(m)];
  }

  /** A message on time, and what follows it. */
  lemma TookCons(s: State, m: FeedMessage, ms: seq<FeedMessage>, t: State)
    requires !s.requesting && m.sequence <= s.last + 1 && (s.last < MAX_SEQUENCE || m.sequence == s.last + 1)
    requires Schedule.Contiguous([m] + ms, m.sequence) && Took(Next(s, Receive(m)), t, ms, m.sequence + 1)
    ensures Took(s, t, [m] + ms, m.sequence)
  {
    var s' := Next(s, Receive(m));
    ReceiveOnTime(s, m);
    AboveCons(m, ms, s.last);
    if m.sequence > s.last {
      TookOne(Log(s), m, Log(s'), AllLive(Schedule.Above(ms, m.sequence)));
    }
  }

  lemma TookOne(log: seq<Entry>, m: FeedMessage, longer: seq<Entry>, above: seq<Entry>)
    requires longer == log + [Live(m)]
    ensures longer + above == log + ([Live(m)] + above)
  {}

  /** From a synchronised state on, a contiguous feed that begins no later than expected is taken into
      the log above the last number, and no gap is found. */
  lemma {:induction false} FollowsOn(s: State, steps: seq<Step>, first: nat)
    requires !s.requesting && s.fetch == Installed && Schedule.Contiguous(Received(steps), first)
    requires first <= s.last + 1 && (s.last < MAX_SEQUENCE || first == s.last + 1)
    ensures Took(s, Run(s, steps), Received(steps), first)
    decreases steps
  {
    if steps == [] {
      assert Log(s) + AllLive([]) == Log(s);
    } else {
      var step, rest := steps[0], steps[1..];
      ReceivedSplit(step, rest);
      assert steps == [step] + rest;
      if step.Receive? {
        var m := step.message;
        assert ([m] + Received(rest))[0] == m;
        AboveCons(m, Received(rest), s.last);
        ReceiveOnTime(s, m);
        FollowsOn(Next(s, step), rest, first + 1);
        TookCons(s, m, Received(rest), Run(s, steps));
      } else {
        StillSynchronised(s, step);
        FollowsOn(Next(s, step), rest, first);
      }
    }
  }

  lemma ReceivedSplit(step: Step, rest: seq<Step>)
    ensures Received([step] + rest) == if step.Receive? then [step.message] + Received(rest) else Received(rest)
  {
    RunConcat(Initial, [step], rest);
    ReceivedOne(step);
  }

  /** In every run in which a message q comes first under the number that is expected, and then the
      contiguous feed from that number on, however the threads interleave: q stays in the place of the
      message that it repeats, everything after that follows, and no gap is found. */
  lemma StrayTakesThePlace(before: seq<Step>, q: FeedMessage, after: seq<Step>)
    requires !Run(Initial, before).requesting && q.sequence == Run(Initial, before).last + 1 < MAX_SEQUENCE
    requires Received(after) != [] && Schedule.Contiguous(Received(after), q.sequence)
    ensures var s, t := Run(Initial, before), Run(Initial, before + [Receive(q)] + after);
      && !t.requesting && t.last == q.sequence + |Received(after)| - 1
      && Log(t) == Log(s) + [Live(q)] + AllLive(Received(after)[1..])
  {
    var s, ms := Run(Initial, before), Received(after);
    var u := Next(s, Receive(q));
    EveryReachableState(before);
    RunConcat(Initial, before + [Receive(q)], after);
    RunConcat(Initial, before, [Receive(q)]);
    assert [Receive(q)][1..] == [] && u == Run(s, [Receive(q)]);
    assert Log(u) == Log(s) + [Live(q)];
    FollowsOn(u, after, q.sequence);
    assert forall i :: 0 <= i < |ms[1..]| ==> ms[1..][i] == ms[i + 1];
    AboveAll(ms[1..], q.sequence + 1, q.sequence);
    assert [] + ms[1..] == ms[1..] && ms[0].sequence == q.sequence;
  }

  // A message that is merged into an order book.

  lemma NewerAround(xs: seq<Entry>, q: FeedMessage, ys: seq<Entry>, n: Sequence)
    ensures Newer(xs + [Live(q)] + ys, n) == Newer(xs, n) + (if q.sequence > n then [Live(q)] else []) + Newer(ys, n)
    ensures Newer(xs + ys, n) == Newer(xs, n) + Newer(ys, n)
  {
    NewerConcat(xs + [Live(q)], ys, n);
    NewerConcat(xs, [Live(q)], n);
    NewerConcat(xs, ys, n);
    assert [Live(q)][1..] == [];
  }

  lemma LastOfTwo(before: seq<Entry>, after: seq<Entry>, n: Sequence)
    ensures LastOf(before + after, n) == LastOf(after, LastOf(before, n))
  {
    if after == [] {
      assert before + after == before;
    } else {
      assert (before + after)[|before + after| - 1] == after[|after| - 1];
    }
  }

  /** The last number after a merge is the same with a message as without it exactly when the message
      is not merged, or another one is merged behind it, or it repeats the last number before it. */
  lemma MergedLastIff(xs: seq<Entry>, q: FeedMessage, ys: seq<Entry>, n: Sequence)
    ensures LastOf(Newer(xs + [Live(q)] + ys, n), n) == LastOf(Newer(xs + ys, n), n) <==>
      (q.sequence <= n || Newer(ys, n) != [] || q.sequence == LastOf(Newer(xs, n), n))
    ensures q.sequence > n && Newer(ys, n) == [] ==> LastOf(Newer(xs + [Live(q)] + ys, n), n) == q.sequence
  {
    NewerAround(xs, q, ys, n);
    var before, mid, after := Newer(xs, n), if q.sequence > n then [Live(q)] else [], Newer(ys, n);
    LastOfTwo(before + mid, after, n);
    LastOfTwo(before, mid, n);
    LastOfTwo(before, after, n);
  }

  /** An inert message does not change what merged entries are translated to. */
  lemma InertMergesToNothing(productId: string, xs: seq<Entry>, q: FeedMessage, ys: seq<Entry>, n: Sequence)
    requires Inert(q)
    ensures TranslateAll(productId, Newer(xs + [Live(q)] + ys, n)) == TranslateAll(productId, Newer(xs + ys, n))
  {
    NewerAround(xs, q, ys, n);
    var kept := Newer(xs, n) + if q.sequence > n then [Live(q)] else [];
    if q.sequence > n {
      InertAddsNothing(productId, Newer(xs, n), q);
    } else {
      assert kept == Newer(xs, n);
    }
    TranslateAllConcat(productId, kept, Newer(ys, n));
    TranslateAllConcat(productId, Newer(xs, n), Newer(ys, n));
  }

  /** The message that follows an installed order book is queued exactly when it is numbered next. */
  lemma NextAfterInstall(s: State, n: Sequence, content: Option<Book>, m: FeedMessage)
    ensures var t := Install(s, n, content); Next(t, Receive(m)).queue == t.queue + [Live(m)] <==> m.sequence == t.last + 1
  {
    var t := Install(s, n, content);
    assert |t.queue + [Live(m)]| == |t.queue| + 1;
  }

  /** An order book is installed over a buffer with an inert message q in it, and over the same buffer
      without q. What is handed over means the same. But the code takes the number of the last merged
      message, q among them, for the last number: the message m that is next without q is still queued
      exactly when q is not merged, or not the last one merged, or repeats the number before it. If not,
      m looks like a gap when q lags behind, and too old when q runs ahead; in both cases m is lost. */
  lemma BufferedStrayIff(s: State, xs: seq<Entry>, q: FeedMessage, ys: seq<Entry>, n: Sequence, content: Option<Book>, productId: string, m: FeedMessage)
    requires Inert(q) && q.sequence < MAX_SEQUENCE
    requires m.sequence == Install(s.(queue := xs + ys), n, content).last + 1
    ensures var t, t' := Install(s.(queue := xs + [Live(q)] + ys), n, content), Install(s.(queue := xs + ys), n, content);
      && TranslateAll(productId, t.queue) == TranslateAll(productId, t'.queue)
      && Next(t', Receive(m)).queue == t'.queue + [Live(m)]
      && (Next(t, Receive(m)).queue == t.queue + [Live(m)] <==> (q.sequence <= n || Newer(ys, n) != [] || q.sequence == LastOf(Newer(xs, n), n)))
      && (Next(t, Receive(m)).queue != t.queue + [Live(m)] ==>
           Next(t, Receive(m)) == if q.sequence < t'.last then t.(last := 0, requesting := true, fetch := Running) else t)
  {
    MergedLastIff(xs, q, ys, n);
    InertMergesToNothing(productId, xs, q, ys, n);
    NextAfterInstall(s.(queue := xs + [Live(q)] + ys), n, content, m);
    NextAfterInstall(s.(queue := xs + ys), n, content, m);
    InstallTranslates(s.(queue := xs + [Live(q)] + ys), n, content, productId);
    InstallTranslates(s.(queue := xs + ys), n, content, productId);
  }

  lemma InstallTranslates(s: State, n: Sequence, content: Option<Book>, productId: string)
    ensures TranslateAll(productId, Install(s, n, content).queue)
         == if content.None? then [] else [Reset(productId, n, content.value.bids, content.value.asks, TranslateAll(productId, Newer(s.queue, n)))]
  {
    LeadsOne(map[], productId, Snapshot(n, content, Newer(s.queue, n)));
  }

  /** In a faithful run, what a synchronised product holds replays to the true book of its last number. */
  lemma LogIsTrue(x: History, steps: seq<Step>, productId: string, b: Book)
    requires x.Valid() && Faithful(x, Initial, steps) && DistinctBook(b) && !Run(Initial, steps).requesting
    ensures var s := Run(Initial, steps);
      s.last <= |x.events| && AsMap(ApplyAll(b, TranslateAll(productId, Log(s)))) == x.At(s.last)
  {
    var s := Run(Initial, steps);
    EveryReachableState(steps);
    SoundRun(x, Initial, steps);
    assert SoundLog(x, Log(s));
    LogFollows(x, productId, Log(s), AsMap(b));
    ChangesRefine(b, TranslateAll(productId, Log(s)));
  }

  lemma InertAddsNothing(productId: string, es: seq<Entry>, q: FeedMessage)
    requires Inert(q)
    ensures TranslateAll(productId, es + [Live(q)]) == TranslateAll(productId, es)
  {
    TranslateAllConcat(productId, es, [Live(q)]);
    LeadsOne(map[], productId, Live(q));
  }

  /** After an inert message of the number that is expected, a product that has followed the exchange so
      far holds the true book of its last number exactly when that is the true book before it. */
  lemma StrayStays(x: History, before: seq<Step>, q: FeedMessage, productId: string, b: Book)
    requires x.Valid() && Faithful(x, Initial, before) && DistinctBook(b) && Inert(q)
    requires var s := Run(Initial, before); !s.requesting && q.sequence == s.last + 1 <= |x.events|
    ensures var t := Run(Initial, before + [Receive(q)]);
      && !t.requesting && t.last == q.sequence
      && (AsMap(ApplyAll(b, TranslateAll(productId, Log(t)))) == x.At(t.last) <==> x.At(q.sequence) == x.At(q.sequence - 1))
  {
    var s := Run(Initial, before);
    LogIsTrue(x, before, productId, b);
    RunConcat(Initial, before, [Receive(q)]);
    assert [Receive(q)][1..] == [];
    ReceiveOnTime(s, q);
    InertAddsNothing(productId, Log(s), q);
  }

  /** That is so exactly when the true message of that number is inert too, or has nothing to do on the
      true book before it. */
  lemma StrayTracksIff(x: History, before: seq<Step>, q: FeedMessage, productId: string, b: Book)
    requires x.Valid() && Faithful(x, Initial, before) && DistinctBook(b) && Inert(q)
    requires var s := Run(Initial, before); !s.requesting && q.sequence == s.last + 1 <= |x.events|
    ensures var t := Run(Initial, before + [Receive(q)]);
      && !t.requesting && t.last == q.sequence
      && (AsMap(ApplyAll(b, TranslateAll(productId, Log(t)))) == x.At(t.last) <==> x.Needless(q.sequence))
  {
    var k := q.sequence;
    var needless, same := x.Needless(k), x.At(k) == x.At(k - 1);
    assert needless == same by { NeedlessIff(x, k); }
    StrayStays(x, before, q, productId, b);
  }

  // Concrete cases.

  function Ticker(n: Sequence): FeedMessage { FeedMessage("ticker", n, "", "", "", 1.0, 1.0, 0.0, "buy") }

  lemma TickerIsInert(n: Sequence)
    ensures Inert(Ticker(n))
  {
    assert |Ticker(n).kind| == 6 && Ticker(n).kind[0] != "change"[0];
  }

  /** One order is opened; a ticker repeats the number of that message. */
  const Shadowed := History(map[], [Quiet(1), Opening(2, "a")])

  const ShadowedSteps := [
    FetchComplete(Reply(Some(1), Some(EmptyBook))), Receive(Ticker(2)), Receive(Opening(2, "a")), Drain, DeliverNext, DeliverNext]

  lemma ShadowedBooks()
    ensures Shadowed.Valid() && Shadowed.At(1) == map[] && Shadowed.At(2) == map[Cell(Buy, "a") := Quote(1.0, 1.0)]
  {
    QuietAndOpening(1, "a");
    QuietAndOpening(2, "a");
    var x := Shadowed;
    assert x.At(0) == map[];
    assert x.At(1) == EffectM(x.At(0), Quiet(1)) == map[];
    assert x.At(2) == EffectM(x.At(1), Opening(2, "a")) == map[Cell(Buy, "a") := Quote(1.0, 1.0)];
    assert x.Numbered(1) && x.Numbered(2);
  }

  lemma Ahead(s: State, steps: seq<Step>, i: nat)
    requires i < |steps|
    ensures Run(s, steps[i..]) == Run(Next(s, steps[i]), steps[i + 1..])
  {
    assert steps[i..][1..] == steps[i + 1..];
  }

  lemma ShadowedRun()
    ensures Run(Initial, ShadowedSteps) == State([], 2, false, Installed, [], [Snapshot(1, Some(EmptyBook), []), Live(Ticker(2))])
  {
    var steps, first, second := ShadowedSteps, Snapshot(1, Some(EmptyBook), []), Live(Ticker(2));
    var s1 := State([first], 1, false, Installed, [], []);
    var s2 := State([first, second], 2, false, Installed, [], []);
    var s4 := State([], 2, false, Installed, [first, second], []);
    var s5 := State([], 2, false, Installed, [second], [first]);
    var s6 := State([], 2, false, Installed, [], [first, second]);
    assert steps[6..] == [] && steps[0..] == steps;
    assert Next(Initial, steps[0]) == s1 && Next(s1, steps[1]) == s2 && Next(s2, steps[2]) == s2;
    assert Next(s2, steps[3]) == s4 && Next(s4, steps[4]) == s5 && Next(s5, steps[5]) == s6;
    Ahead(Initial, steps, 0);
    Ahead(s1, steps, 1);
    Ahead(s2, steps, 2);
    Ahead(s2, steps, 3);
    Ahead(s4, steps, 4);
    Ahead(s5, steps, 5);
  }

  /** Every message is true or inert, the order book is true, nothing is missing from the feed, and
      everything has been handed over; but the book lacks the order, for good. */
  lemma ShadowedMessageLosesOrder(productId: string)
    ensures Shadowed.Valid() && Shadowed.TrueBook(1, Some(EmptyBook))
    ensures forall i :: 0 <= i < |ShadowedSteps| && ShadowedSteps[i].Receive? ==>
      Shadowed.Authentic(ShadowedSteps[i].message) || Inert(ShadowedSteps[i].message)
    ensures var t := Run(Initial, ShadowedSteps);
      && t.last == |Shadowed.events| && t.queue == t.batch == []
      && AsMap(ApplyAll(EmptyBook, TranslateAll(productId, t.delivered))) == map[] != Shadowed.At(t.last)
  {
    ShadowedBooks();
    ShadowedRun();
    EntriesLeaveNothing(productId);
    TickerIsInert(2);
    assert Cell(Buy, "a") in Shadowed.At(2);
  }

  lemma EntriesLeaveNothing(productId: string)
    ensures ApplyAll(EmptyBook, TranslateAll(productId, [Snapshot(1, Some(EmptyBook), []), Live(Ticker(2))])) == EmptyBook
  {
    TickerIsInert(2);
    var first, second := Snapshot(1, Some(EmptyBook), []), Live(Ticker(2));
    assert [first, second] == [first] + [second];
    InertAddsNothing(productId, [first], Ticker(2));
    TranslationKeepsMeaning(EmptyBook, productId, [first]);
    assert [first][1..] == [] && Play(EmptyBook, first) == EmptyBook;
  }

  /** One order is opened after three messages that change nothing; a ticker lags behind. */
  const Lagging := History(map[], [Quiet(1), Quiet(2), Quiet(3), Opening(4, "a"), Quiet(5)])

  const Buffering := [Receive(Quiet(2)), Receive(Quiet(3))]

  /** An order book that is older than what is buffered, the order, one more message, and, should it
      have been asked for, another order book. */
  const Installing := [FetchComplete(Reply(Some(1), Some(EmptyBook)))]
  const Following := [Receive(Opening(4, "a")), Receive(Quiet(5)), FetchComplete(Reply(Some(3), Some(EmptyBook))), Drain, DeliverNext]

  /** The feed with the ticker, and without it. */
  const LaggingSteps := Buffering + [Receive(Ticker(2))] + Installing + Following
  const PunctualSteps := Buffering + Installing + Following

  lemma LaggingBooks()
    ensures Lagging.Valid() && Lagging.At(1) == Lagging.At(3) == map[] && Cell(Buy, "a") in Lagging.At(5)
  {
    QuietAndOpening(1, "a");
    QuietAndOpening(2, "a");
    QuietAndOpening(3, "a");
    QuietAndOpening(4, "a");
    QuietAndOpening(5, "a");
    var x := Lagging;
    assert x.At(0) == map[];
    assert x.At(1) == EffectM(x.At(0), Quiet(1)) == map[];
    assert x.At(2) == EffectM(x.At(1), Quiet(2)) == map[];
    assert x.At(3) == EffectM(x.At(2), Quiet(3)) == map[];
    assert x.At(4) == EffectM(x.At(3), Opening(4, "a")) == map[Cell(Buy, "a") := Quote(1.0, 1.0)];
    assert x.At(5) == EffectM(x.At(4), Quiet(5));
    assert x.Numbered(1) && x.Numbered(2) && x.Numbered(3) && x.Numbered(4) && x.Numbered(5);
  }

  lemma NewerTwo(e: Entry, d: Entry, n: Sequence)
    ensures Newer([e], n) == if e.Sequence() > n then [e] else []
    ensures Newer([e, d], n) == Newer([e], n) + Newer([d], n)
  {
    assert [e][1..] == [] && [d][1..] == [] && [e, d][1..] == [d];
  }

  const Buffered := Initial.(queue := [Live(Quiet(2)), Live(Quiet(3))])

  /** What the order books become with what is merged into them. */
  const TurnedBack := Snapshot(1, Some(EmptyBook), [Live(Quiet(2)), Live(Quiet(3)), Live(Ticker(2))])
  const Punctual := Snapshot(1, Some(EmptyBook), [Live(Quiet(2)), Live(Quiet(3))])
  const Second := Snapshot(3, Some(EmptyBook), [Live(Quiet(5))])

  function Synced(queue: seq<Entry>, last: Sequence): State { State(queue, last, false, Installed, [], []) }

  lemma RunOne(s: State, step: Step)
    ensures Run(s, [step]) == Next(s, step)
  {
    assert [step][1..] == [];
  }

  /** All that is buffered is newer than the first order book. */
  lemma AllNewer()
    ensures Newer(Buffered.queue, 1) == Buffered.queue && Newer(Buffered.queue + [Live(Ticker(2))], 1) == Buffered.queue + [Live(Ticker(2))]
  {
    NewerAll(Buffered.queue, 1);
    NewerAll(Buffered.queue + [Live(Ticker(2))], 1);
  }

  lemma BufferingRuns()
    ensures Run(Initial, Buffering) == Buffered
  {
    var s1 := Initial.(queue := [Live(Quiet(2))]);
    assert Buffering == [Buffering[0]] + [Buffering[1]];
    RunConcat(Initial, [Buffering[0]], [Buffering[1]]);
    RunOne(Initial, Buffering[0]);
    RunOne(s1, Buffering[1]);
  }

  lemma PunctualInstall()
    ensures Run(Initial, Buffering + Installing) == Synced([Punctual], 3)
  {
    BufferingRuns();
    AllNewer();
    RunConcat(Initial, Buffering, Installing);
    RunOne(Buffered, Installing[0]);
  }

  /** The ticker turns the count back to two. */
  lemma TickerTurnsBack()
    ensures Run(Initial, Buffering + [Receive(Ticker(2))] + Installing) == Synced([TurnedBack], 2)
  {
    var s := Buffered.(queue := Buffered.queue + [Live(Ticker(2))]);
    BufferingRuns();
    RunConcat(Initial, Buffering, [Receive(Ticker(2))]);
    RunConcat(Initial, Buffering + [Receive(Ticker(2))], Installing);
    RunOne(Buffered, Receive(Ticker(2)));
    RunOne(s, Installing[0]);
    AllNewer();
    assert s.queue == TurnedBack.toMerge;
    assert Install(s, 1, Some(EmptyBook)) == Synced([TurnedBack], 2);
  }

  /** So the message numbered four looks like a gap, and is not kept. */
  lemma LaggingGap()
    ensures Run(Synced([TurnedBack], 2), Following) == Run(State([TurnedBack, Live(Quiet(5))], 0, true, Running, [], []), Following[2..])
  {
    var s, s1 := Synced([TurnedBack], 2), State([TurnedBack], 0, true, Running, [], []);
    assert Following[0..] == Following;
    Ahead(s, Following, 0);
    assert Next(s, Following[0]) == s1;
    Ahead(s1, Following, 1);
  }

  lemma SecondIsNewer()
    ensures Newer([TurnedBack, Live(Quiet(5))], 3) == [Live(Quiet(5))]
  {
    NewerTwo(TurnedBack, Live(Quiet(5)), 3);
    NewerTwo(Live(Quiet(5)), Live(Quiet(5)), 3);
  }

  /** The next order book is older than it. */
  lemma LaggingFollows()
    ensures Run(State([TurnedBack, Live(Quiet(5))], 0, true, Running, [], []), Following[2..]) == State([], 5, false, Installed, [], [Second])
  {
    var s, s4 := State([TurnedBack, Live(Quiet(5))], 0, true, Running, [], []), State([], 5, false, Installed, [Second], []);
    SecondIsNewer();
    assert Following[5..] == [];
    Ahead(s, Following, 2);
    assert Next(s, Following[2]) == Synced([Second], 5);
    Ahead(Synced([Second], 5), Following, 3);
    Ahead(s4, Following, 4);
  }

  lemma LaggingRun()
    ensures Run(Initial, LaggingSteps) == State([], 5, false, Installed, [], [Second])
  {
    TickerTurnsBack();
    LaggingGap();
    LaggingFollows();
    RunConcat(Initial, Buffering + [Receive(Ticker(2))] + Installing, Following);
  }

  /** Without the ticker no gap is found, and the order is held. */
  lemma PunctualRun()
    ensures var t := Run(Initial, PunctualSteps);
      !t.requesting && t.last == 5 && Log(t) == [Punctual, Live(Opening(4, "a")), Live(Quiet(5))]
  {
    PunctualInstall();
    RunConcat(Initial, Buffering + Installing, Following);
    var steps, four, five := Following, Live(Opening(4, "a")), Live(Quiet(5));
    var s3 := State([], 5, false, Installed, [Punctual, four, five], []);
    var s4 := State([], 5, false, Installed, [four, five], [Punctual]);
    assert steps[5..] == [] && steps[0..] == steps;
    Ahead(Synced([Punctual], 3), steps, 0);
    assert Next(Synced([Punctual], 3), steps[0]) == Synced([Punctual, four], 4);
    Ahead(Synced([Punctual, four], 4), steps, 1);
    assert Next(Synced([Punctual, four], 4), steps[1]) == Synced([Punctual, four, five], 5);
    Ahead(Synced([Punctual, four, five], 5), steps, 2);
    Ahead(Synced([Punctual, four, five], 5), steps, 3);
    assert Next(Synced([Punctual, four, five], 5), steps[3]) == s3;
    Ahead(s3, steps, 4);
    assert Next(s3, steps[4]) == s4;
  }

  /** Every message is true or inert, both order books are true, nothing is missing from the feed, and
      everything has been handed over up to the exchange's last number; but the book lacks the order,
      for good, because a ticker was the last message merged. */
  lemma LaggingTickerLosesOrder(productId: string)
    ensures Lagging.Valid() && Lagging.TrueBook(1, Some(EmptyBook)) && Lagging.TrueBook(3, Some(EmptyBook))
    ensures forall i :: 0 <= i < |LaggingSteps| && LaggingSteps[i].Receive? ==>
      Lagging.Authentic(LaggingSteps[i].message) || Inert(LaggingSteps[i].message)
    ensures var t := Run(Initial, LaggingSteps);
      && t.last == |Lagging.events| && t.queue == t.batch == []
      && AsMap(ApplyAll(EmptyBook, TranslateAll(productId, t.delivered))) == map[] != Lagging.At(t.last)
    ensures !Run(Initial, PunctualSteps).requesting && Live(Opening(4, "a")) in Log(Run(Initial, PunctualSteps))
  {
    LaggingBooks();
    LaggingRun();
    PunctualRun();
    TickerIsInert(2);
    assert Log(Run(Initial, PunctualSteps))[1] == Live(Opening(4, "a"));
    QuietAndOpening(5, "a");
    var e := Snapshot(3, Some(EmptyBook), [Live(Quiet(5))]);
    TranslationKeepsMeaning(EmptyBook, productId, [e]);
    assert [e][1..] == [] && [Live(Quiet(5))][1..] == [] && |Quiet(5).kind| == 8;
    assert PlayAll(EmptyBook, [Live(Quiet(5))]) == EmptyBook;
  }
}
