/** What the protocol can always do: hand over what it holds, and realise every run of its atomic steps
    by instructions of its threads. */
module Progress {
  import opened OrderBooks
  import opened Messages
  import opened FeedProduct
  import opened Invariants
  import Threads

  // Handing over.

  function Times<T>(x: T, n: nat): seq<T> {
    if n == 0 then [] else [x] + Times(x, n - 1)
  }

  lemma {:induction false} DeliverBatch(s: State)
    ensures Run(s, Times(DeliverNext, |s.batch|)) == s.(batch := [], delivered := s.delivered + s.batch)
    decreases |s.batch|
  {
    if s.batch == [] {
      assert s.delivered + s.batch == s.delivered;
    } else {
      var t := Next(s, DeliverNext);
      DeliverBatch(t);
      assert Times(DeliverNext, |s.batch|)[1..] == Times(DeliverNext, |t.batch|);
      assert t.delivered + t.batch == s.delivered + s.batch;
    }
  }

  /** A turn of the message loop: the rest of what it took, then what is queued. */
  function HandOver(s: State): seq<Step> {
    Times(DeliverNext, |s.batch|) + [Drain] + Times(DeliverNext, |s.queue|)
  }

  /** A synchronised product hands over all that it holds, in order, and nothing else. */
  lemma EverythingIsHandedOver(s: State)
    requires !s.requesting
    ensures Run(s, HandOver(s)) == s.(queue := [], batch := [], delivered := Log(s))
  {
    var t := s.(batch := [], delivered := s.delivered + s.batch);
    var u := t.(batch := s.queue, queue := []);
    DeliverBatch(s);
    RunConcat(s, Times(DeliverNext, |s.batch|), [Drain]);
    RunConcat(s, Times(DeliverNext, |s.batch|) + [Drain], Times(DeliverNext, |s.queue|));
    assert [Drain][1..] == [] && Run(t, [Drain]) == u;
    DeliverBatch(u);
  }

  /** While an order book is awaited, the loop hands over what it took, and takes nothing. */
  lemma NothingIsTaken(s: State)
    requires s.requesting
    ensures Run(s, HandOver(s)) == s.(batch := [], delivered := s.delivered + s.batch)
  {
    var t := s.(batch := [], delivered := s.delivered + s.batch);
    DeliverBatch(s);
    RunConcat(s, Times(DeliverNext, |s.batch|), [Drain]);
    RunConcat(s, Times(DeliverNext, |s.batch|) + [Drain], Times(DeliverNext, |s.queue|));
    assert [Drain][1..] == [] && Run(t, [Drain]) == t;
    NothingToDeliver(t, |s.queue|);
  }

  lemma {:induction false} NothingToDeliver(s: State, n: nat)
    requires s.batch == []
    ensures Run(s, Times(DeliverNext, n)) == s
    decreases n
  {
    if n > 0 {
      NothingToDeliver(s, n - 1);
      assert Times(DeliverNext, n)[1..] == Times(DeliverNext, n - 1);
    }
  }

  /** After the greatest sequence number, whose successor is zero, every message but one numbered zero
      looks like a gap, even one that was received before. */
  lemma WrapAroundLooksLikeGap(before: seq<Step>, m: FeedMessage)
    requires !Run(Initial, before).requesting && Run(Initial, before).last == 0xFFFF_FFFF_FFFF_FFFF
    ensures var s, t := Run(Initial, before), Run(Initial, before + [Receive(m)]);
      && Log(t) == Log(s)
      && (t.requesting <==> m.sequence != 0)
  {
    RunConcat(Initial, before, [Receive(m)]);
    assert [Receive(m)][1..] == [];
  }

  // Every run of the atomic steps happens.

  /** No thread is in the middle of anything. */
  ghost predicate Rests(x: Threads.Threads) {
    Threads.Inv(x) && x.holder == None && x.r.Idle? && x.l.Outside? && (x.f.Asking? || x.f.Exited?)
  }

  /** The instructions for a step; those whose thread is elsewhere change nothing. */
  function TraceOf(x: Threads.Threads, step: Step): seq<Threads.Instruction> {
    match step
    case Receive(m) => [Threads.Arrive(m), Threads.RAcquire, Threads.RCheck, Threads.RSetFlag, Threads.RJoinAndStart, Threads.RRelease]
    case FetchComplete(reply) => FetchStart(reply) + Times(Threads.FMerge, |x.queue|) + FetchEnd
    case Drain => [Threads.LAcquire, Threads.LCopy, Threads.LClear, Threads.LRelease]
    case DeliverNext => [Threads.LDeliver]
  }

  function FetchStart(reply: Reply): seq<Threads.Instruction> { [Threads.FReply(reply), Threads.FAcquire, Threads.FSetLast] }
  const FetchEnd := [Threads.FPush, Threads.FClearFlag, Threads.FRelease, Threads.FReturn]

  lemma {:induction false} ExecuteConcat(x: Threads.Threads, xs: seq<Threads.Instruction>, ys: seq<Threads.Instruction>)
    ensures Threads.ExecuteAll(x, xs + ys) == Threads.ExecuteAll(Threads.ExecuteAll(x, xs), ys)
    decreases xs
  {
    if xs == [] {
      assert xs + ys == ys;
    } else {
      assert (xs + ys)[1..] == xs[1..] + ys;
      ExecuteConcat(Threads.Execute(x, xs[0]), xs[1..], ys);
    }
  }

  lemma ExecuteNext(x: Threads.Threads, trace: seq<Threads.Instruction>, i: nat)
    requires i < |trace|
    ensures Threads.ExecuteAll(x, trace[i..]) == Threads.ExecuteAll(Threads.Execute(x, trace[i]), trace[i + 1..])
  {
    assert trace[i..][1..] == trace[i + 1..];
  }

  /** An instruction inside a critical section takes no atomic step. */
  lemma Quietly(x: Threads.Threads, i: Threads.Instruction)
    requires Threads.Inv(x) && Threads.StepOf(x, i) == []
    ensures Threads.Inv(Threads.Execute(x, i)) && Threads.Abs(Threads.Execute(x, i)) == Threads.Abs(x)
  {
    Threads.InvExecute(x, i);
    Threads.InstructionRefines(x, i);
  }

  lemma Four(x: Threads.Threads, a: Threads.Instruction, b: Threads.Instruction, c: Threads.Instruction, d: Threads.Instruction)
    ensures Threads.ExecuteAll(x, [a, b, c, d]) == Threads.Execute(Threads.Execute(Threads.Execute(Threads.Execute(x, a), b), c), d)
  {
    var trace := [a, b, c, d];
    assert trace[0..] == trace && trace[4..] == [];
    ExecuteNext(x, trace, 0);
    ExecuteNext(Threads.Execute(x, a), trace, 1);
    ExecuteNext(Threads.Execute(Threads.Execute(x, a), b), trace, 2);
    ExecuteNext(Threads.Execute(Threads.Execute(Threads.Execute(x, a), b), c), trace, 3);
  }

  /** Where the threads are after the loop has been through its critical section, or not let in. */
  lemma DrainReturns(x: Threads.Threads)
    requires Rests(x)
    ensures var y := Threads.Execute(Threads.Execute(Threads.Execute(Threads.Execute(x, Threads.LAcquire), Threads.LCopy), Threads.LClear), Threads.LRelease);
      y.holder == None && y.r == x.r && y.l.Outside? && y.f == x.f
  {}

  lemma DrainHappens(x: Threads.Threads)
    requires Rests(x)
    ensures var y := Threads.ExecuteAll(x, TraceOf(x, Drain)); Rests(y) && Threads.Abs(y) == Next(Threads.Abs(x), Drain)
  {
    DrainReturns(x);
    Four(x, Threads.LAcquire, Threads.LCopy, Threads.LClear, Threads.LRelease);
    Threads.InvExecute(x, Threads.LAcquire);
    Threads.LooperRefines(x, Threads.LAcquire);
    var x1 := Threads.Execute(x, Threads.LAcquire);
    DrainsQuietly(x1);
    assert x.batch != [] ==> x1 == x;
  }

  lemma DrainsQuietly(x: Threads.Threads)
    requires Threads.Inv(x)
    ensures var y := Threads.Execute(Threads.Execute(Threads.Execute(x, Threads.LCopy), Threads.LClear), Threads.LRelease);
      Threads.Inv(y) && Threads.Abs(y) == Threads.Abs(x)
  {
    Quietly(x, Threads.LCopy);
    Quietly(Threads.Execute(x, Threads.LCopy), Threads.LClear);
    Quietly(Threads.Execute(Threads.Execute(x, Threads.LCopy), Threads.LClear), Threads.LRelease);
  }

  lemma Six(x: Threads.Threads, a: Threads.Instruction, b: Threads.Instruction, c: Threads.Instruction,
            d: Threads.Instruction, e: Threads.Instruction, f: Threads.Instruction)
    ensures Threads.ExecuteAll(x, [a, b, c, d, e, f])
         == Threads.Execute(Threads.Execute(Threads.ExecuteAll(x, [a, b, c, d]), e), f)
  {
    assert [a, b, c, d, e, f] == [a, b, c, d] + [e, f];
    ExecuteConcat(x, [a, b, c, d], [e, f]);
    var y := Threads.ExecuteAll(x, [a, b, c, d]);
    assert [e, f][0..] == [e, f] && [e, f][2..] == [];
    ExecuteNext(y, [e, f], 0);
    ExecuteNext(Threads.Execute(y, e), [e, f], 1);
  }

  /** The receiver waits for the mutex and gets it. */
  lemma ReceiveEnters(x: Threads.Threads, m: FeedMessage)
    requires Rests(x)
    ensures var y := Threads.Execute(Threads.Execute(x, Threads.Arrive(m)), Threads.RAcquire);
      && Threads.Inv(y) && Threads.Abs(y) == Next(Threads.Abs(x), Receive(m))
      && y.r == Threads.Checking(m) && y.f == x.f && y.l.Outside? && y.holder == Some(Threads.Receiver)
  {
    var x1 := Threads.Execute(x, Threads.Arrive(m));
    Quietly(x, Threads.Arrive(m));
    Threads.InvExecute(x1, Threads.RAcquire);
    Threads.ReceiverRefines(x1, Threads.RAcquire);
  }

  function Checked(x: Threads.Threads): Threads.Threads {
    Threads.Execute(Threads.Execute(Threads.Execute(Threads.Execute(x, Threads.RCheck), Threads.RSetFlag), Threads.RJoinAndStart), Threads.RRelease)
  }

  lemma ReceiveReturns(x: Threads.Threads)
    requires Threads.Inv(x) && x.r.Checking? && x.l.Outside? && (x.f.Asking? || x.f.Exited?)
    ensures var y := Checked(x); y.holder == None && y.r.Idle? && y.l.Outside? && (y.f.Asking? || y.f.Exited?)
  {}

  lemma ReceivesQuietly(x: Threads.Threads)
    requires Threads.Inv(x)
    ensures Threads.Inv(Checked(x)) && Threads.Abs(Checked(x)) == Threads.Abs(x)
  {
    var x1 := Threads.Execute(x, Threads.RCheck);
    Quietly(x, Threads.RCheck);
    Quietly(x1, Threads.RSetFlag);
    Quietly(Threads.Execute(x1, Threads.RSetFlag), Threads.RJoinAndStart);
    Quietly(Threads.Execute(Threads.Execute(x1, Threads.RSetFlag), Threads.RJoinAndStart), Threads.RRelease);
  }

  lemma ReceiveHappens(x: Threads.Threads, m: FeedMessage)
    requires Rests(x)
    ensures var y := Threads.ExecuteAll(x, TraceOf(x, Receive(m))); Rests(y) && Threads.Abs(y) == Next(Threads.Abs(x), Receive(m))
  {
    Six(x, Threads.Arrive(m), Threads.RAcquire, Threads.RCheck, Threads.RSetFlag, Threads.RJoinAndStart, Threads.RRelease);
    Four(x, Threads.Arrive(m), Threads.RAcquire, Threads.RCheck, Threads.RSetFlag);
    ReceiveEnters(x, m);
    var y := Threads.Execute(Threads.Execute(x, Threads.Arrive(m)), Threads.RAcquire);
    ReceiveReturns(y);
    ReceivesQuietly(y);
  }

  lemma DeliverHappens(x: Threads.Threads)
    requires Rests(x)
    ensures var y := Threads.ExecuteAll(x, TraceOf(x, DeliverNext)); Rests(y) && Threads.Abs(y) == Next(Threads.Abs(x), DeliverNext)
  {
    Threads.InvExecute(x, Threads.LDeliver);
    Threads.LooperRefines(x, Threads.LDeliver);
    assert [Threads.LDeliver][1..] == [];
  }

  /** The loop of the request thread empties the queue. */
  lemma {:induction false} MergesAll(x: Threads.Threads)
    requires Threads.Inv(x) && x.f.Merging?
    ensures var y := Threads.ExecuteAll(x, Times(Threads.FMerge, |x.queue|));
      Threads.Inv(y) && y.f.Merging? && y.queue == [] && y.r == x.r && y.l == x.l && Threads.Abs(y) == Threads.Abs(x)
    decreases |x.queue|
  {
    if x.queue != [] {
      var y := Threads.Execute(x, Threads.FMerge);
      Threads.InvExecute(x, Threads.FMerge);
      Threads.MergeRefines(x);
      MergesAll(y);
      assert Times(Threads.FMerge, |x.queue|)[1..] == Times(Threads.FMerge, |y.queue|);
    }
  }

  lemma Three(x: Threads.Threads, a: Threads.Instruction, b: Threads.Instruction, c: Threads.Instruction)
    ensures Threads.ExecuteAll(x, [a, b, c]) == Threads.Execute(Threads.Execute(Threads.Execute(x, a), b), c)
  {
    var trace := [a, b, c];
    assert trace[0..] == trace && trace[3..] == [];
    ExecuteNext(x, trace, 0);
    ExecuteNext(Threads.Execute(x, a), trace, 1);
    ExecuteNext(Threads.Execute(Threads.Execute(x, a), b), trace, 2);
  }

  /** A usable reply lets the request thread in, any other one ends it. */
  lemma ReplyHappens(x: Threads.Threads, reply: Reply)
    requires Rests(x)
    ensures var y := Threads.Execute(Threads.Execute(x, Threads.FReply(reply)), Threads.FAcquire);
      && Threads.Inv(y) && y.r.Idle? && y.l.Outside? && y.queue == x.queue
      && Threads.Abs(y) == Next(Threads.Abs(x), FetchComplete(reply))
      && (y.f.Entered? || (y.f.Exited? && y.holder == None))
  {
    var x1 := Threads.Execute(x, Threads.FReply(reply));
    Threads.InvExecute(x, Threads.FReply(reply));
    Threads.ReplyRefines(x, reply);
    Threads.InvExecute(x1, Threads.FAcquire);
    Threads.RequesterRefines(x1, Threads.FAcquire);
  }

  lemma FetchStarts(x: Threads.Threads, reply: Reply)
    requires Rests(x)
    ensures var y := Threads.ExecuteAll(x, FetchStart(reply));
      && Threads.Inv(y) && y.r.Idle? && y.l.Outside? && y.queue == x.queue
      && Threads.Abs(y) == Next(Threads.Abs(x), FetchComplete(reply))
      && (y.f.Merging? || (y.f.Exited? && y.holder == None))
  {
    Three(x, Threads.FReply(reply), Threads.FAcquire, Threads.FSetLast);
    ReplyHappens(x, reply);
    Quietly(Threads.Execute(Threads.Execute(x, Threads.FReply(reply)), Threads.FAcquire), Threads.FSetLast);
  }

  /** Where the request thread is after its critical section, or if it was not in it. */
  lemma FetchReturns(x: Threads.Threads)
    requires x.r.Idle? && x.l.Outside? && ((x.f.Merging? && x.queue == []) || (x.f.Exited? && x.holder == None))
    ensures var y := Threads.Execute(Threads.Execute(Threads.Execute(Threads.Execute(x, Threads.FPush), Threads.FClearFlag), Threads.FRelease), Threads.FReturn);
      y.holder == None && y.r.Idle? && y.l.Outside? && y.f.Exited?
  {}

  lemma FetchEnds(x: Threads.Threads)
    requires Threads.Inv(x) && x.r.Idle? && x.l.Outside?
    requires (x.f.Merging? && x.queue == []) || (x.f.Exited? && x.holder == None)
    ensures Rests(Threads.ExecuteAll(x, FetchEnd)) && Threads.Abs(Threads.ExecuteAll(x, FetchEnd)) == Threads.Abs(x)
  {
    FetchReturns(x);
    Four(x, Threads.FPush, Threads.FClearFlag, Threads.FRelease, Threads.FReturn);
    EndsQuietly(x);
  }

  lemma EndsQuietly(x: Threads.Threads)
    requires Threads.Inv(x)
    ensures var y := Threads.Execute(Threads.Execute(Threads.Execute(Threads.Execute(x, Threads.FPush), Threads.FClearFlag), Threads.FRelease), Threads.FReturn);
      Threads.Inv(y) && Threads.Abs(y) == Threads.Abs(x)
  {
    var x1 := Threads.Execute(x, Threads.FPush);
    Quietly(x, Threads.FPush);
    Quietly(x1, Threads.FClearFlag);
    Quietly(Threads.Execute(x1, Threads.FClearFlag), Threads.FRelease);
    Quietly(Threads.Execute(Threads.Execute(x1, Threads.FClearFlag), Threads.FRelease), Threads.FReturn);
  }

  lemma {:induction false} MergesNothing(x: Threads.Threads, n: nat)
    requires !x.f.Merging?
    ensures Threads.ExecuteAll(x, Times(Threads.FMerge, n)) == x
    decreases n
  {
    if n > 0 {
      MergesNothing(x, n - 1);
      assert Times(Threads.FMerge, n)[1..] == Times(Threads.FMerge, n - 1);
    }
  }

  lemma FetchHappens(x: Threads.Threads, reply: Reply)
    requires Rests(x)
    ensures var y := Threads.ExecuteAll(x, TraceOf(x, FetchComplete(reply)));
      Rests(y) && Threads.Abs(y) == Next(Threads.Abs(x), FetchComplete(reply))
  {
    var merges := Times(Threads.FMerge, |x.queue|);
    FetchStarts(x, reply);
    ExecuteConcat(x, FetchStart(reply) + merges, FetchEnd);
    ExecuteConcat(x, FetchStart(reply), merges);
    var y := Threads.ExecuteAll(x, FetchStart(reply));
    if y.f.Merging? {
      MergesAll(y);
    } else {
      MergesNothing(y, |x.queue|);
    }
    FetchEnds(Threads.ExecuteAll(y, merges));
  }

  lemma StepHappens(x: Threads.Threads, step: Step)
    requires Rests(x)
    ensures var y := Threads.ExecuteAll(x, TraceOf(x, step)); Rests(y) && Threads.Abs(y) == Next(Threads.Abs(x), step)
  {
    match step
    case Receive(m) => ReceiveHappens(x, m);
    case FetchComplete(reply) => FetchHappens(x, reply);
    case Drain => DrainHappens(x);
    case DeliverNext => DeliverHappens(x);
  }

  /** Every run of the atomic protocol happens: some interleaving of the threads' instructions ends at
      rest, with the shared variables as the run leaves them. */
  lemma {:induction false} EveryRunHappens(x: Threads.Threads, steps: seq<Step>) returns (trace: seq<Threads.Instruction>)
    requires Rests(x)
    ensures var y, s := Threads.ExecuteAll(x, trace), Run(Threads.Abs(x), steps);
      && Rests(y) && Threads.Abs(y) == s
      && y.queue == s.queue && y.last == s.last && y.requesting == s.requesting && y.batch == s.batch && y.delivered == s.delivered
    decreases steps
  {
    if steps == [] {
      trace := [];
      Threads.AbsIsVisible(x);
    } else {
      StepHappens(x, steps[0]);
      var rest := EveryRunHappens(Threads.ExecuteAll(x, TraceOf(x, steps[0])), steps[1..]);
      trace := TraceOf(x, steps[0]) + rest;
      ExecuteConcat(x, TraceOf(x, steps[0]), rest);
    }
  }

  lemma StartRests()
    ensures Rests(Threads.Start) && Threads.Abs(Threads.Start) == Initial
  {}
}
