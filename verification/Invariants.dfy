/** What holds in every reachable state of the protocol, whatever the feed and the replies are. */
module Invariants {
  import opened Messages
  import opened FeedProduct

  /** Everything the product holds, oldest first: handed over, taken, queued. */
  function Log(s: State): seq<Entry> {
    s.delivered + s.batch + s.queue
  }

  /** The sequence number a book has after this entry, as the protocol counts it. */
  function Head(e: Entry): Sequence {
    match e
    case Live(m) => m.sequence
    case Snapshot(n, _, toMerge) => LastOf(toMerge, n)
  }

  /** A concatenation of epochs: each starts with a full order book, and every other entry is
      numbered one above the head of the entry before it. */
  ghost predicate Epochs(es: seq<Entry>) {
    && (es != [] ==> es[0].Snapshot?)
    && forall i, j :: 0 <= i < j == i + 1 < |es| && es[j].Live? ==> es[j].Sequence() == Head(es[i]) + 1
  }

  /** No full order book has number zero, nor holds a merged entry at or below its own number. */
  ghost predicate MergesAbove(e: Entry) {
    e.Snapshot? ==> e.number != 0 && forall m :: m in e.toMerge ==> m.Sequence() > e.number && MergesAbove(m)
  }

  ghost predicate Inv(s: State) {
    && (s.requesting <==> s.last == 0)
    && (s.requesting <==> s.fetch != Installed)
    && Epochs(s.delivered + s.batch)
    && (!s.requesting ==> Epochs(Log(s)) && Log(s) != [] && Head(Log(s)[|Log(s)| - 1]) == s.last)
    && (forall e :: e in Log(s) ==> MergesAbove(e))
  }

  lemma {:induction false} NewerMembers(es: seq<Entry>, n: Sequence)
    ensures forall e :: e in Newer(es, n) <==> e in es && e.Sequence() > n
  {
    if es != [] {
      NewerMembers(es[1..], n);
      assert es == [es[0]] + es[1..];
    }
  }

  lemma InvInstall(s: State, n: Sequence, content: Option<OrderBooks.Book>)
    requires Inv(s) && n != 0
    ensures Inv(Install(s, n, content))
  {
    var t, merged := Install(s, n, content), Newer(s.queue, n);
    NewerMembers(s.queue, n);
    assert merged != [] ==> merged[|merged| - 1] in merged;
    var e := Snapshot(n, content, merged);
    assert forall m :: m in merged ==> m in Log(s);
    assert MergesAbove(e);
    assert Log(t) == s.delivered + s.batch + [e];
    assert Head(e) == t.last;
  }

  lemma InvReceive(s: State, m: FeedMessage)
    requires Inv(s)
    ensures Inv(Next(s, Receive(m)))
  {
    var t := Next(s, Receive(m));
    if t.queue != s.queue {
      assert Log(t) == Log(s) + [Live(m)];
    }
  }

  lemma InvStep(s: State, step: Step)
    requires Inv(s)
    ensures Inv(Next(s, step))
  {
    match step
    case Receive(m) => InvReceive(s, m);
    case FetchComplete(reply) =>
      if s.fetch == Running && Usable(reply) {
        InvInstall(s, reply.sequence.value, reply.content);
      } else {
        assert Log(Next(s, step)) == Log(s);
      }
    case Drain =>
      assert s.batch == [] && !s.requesting ==> s.delivered + Next(s, step).batch == Log(s);
      assert Log(Next(s, step)) == Log(s);
    case DeliverNext =>
      var t := Next(s, step);
      assert t.delivered + t.batch == s.delivered + s.batch;
      assert Log(t) == Log(s);
  }

  lemma {:induction false} InvRun(s: State, steps: seq<Step>)
    requires Inv(s)
    ensures Inv(Run(s, steps))
    decreases steps
  {
    if steps != [] {
      InvStep(s, steps[0]);
      InvRun(Next(s, steps[0]), steps[1..]);
    }
  }

  /** Every run, from the start, on any feed and any replies. */
  lemma EveryReachableState(steps: seq<Step>)
    ensures Inv(Run(Initial, steps))
  {
    InvRun(Initial, steps);
  }

  // Conservation.

  /** The feed messages inside entries, at any depth, in order. */
  function MessagesIn(es: seq<Entry>): seq<FeedMessage> {
    if es == [] then []
    else (match es[0] case Live(m) => [m] case Snapshot(_, _, toMerge) => MessagesIn(toMerge)) + MessagesIn(es[1..])
  }

  function NotNewer(es: seq<Entry>, n: Sequence): seq<Entry> {
    if es == [] then []
    else (if es[0].Sequence() > n then [] else [es[0]]) + NotNewer(es[1..], n)
  }

  datatype Cause = TooOld | GapTrigger | Covered

  /** The feed messages a step throws away, by cause. */
  function Dropped(s: State, step: Step, cause: Cause): multiset<FeedMessage> {
    match step
    case Receive(m) =>
      if s.requesting || m.sequence == s.last + 1 || cause.Covered? then multiset{}
      else if (m.sequence > Succ(s.last)) == cause.GapTrigger? then multiset{m}
      else multiset{}
    case FetchComplete(reply) =>
      if s.fetch == Running && Usable(reply) && cause.Covered? then multiset(MessagesIn(NotNewer(s.queue, reply.sequence.value))) else multiset{}
    case _ => multiset{}
  }

  function DroppedIn(s: State, steps: seq<Step>, cause: Cause): multiset<FeedMessage>
    decreases steps
  {
    if steps == [] then multiset{} else Dropped(s, steps[0], cause) + DroppedIn(Next(s, steps[0]), steps[1..], cause)
  }

  /** The sum over the three causes, in one step and in a run. */
  function DroppedNow(s: State, step: Step): multiset<FeedMessage> {
    Dropped(s, step, TooOld) + Dropped(s, step, GapTrigger) + Dropped(s, step, Covered)
  }

  function DroppedTotal(s: State, steps: seq<Step>): multiset<FeedMessage> {
    DroppedIn(s, steps, TooOld) + DroppedIn(s, steps, GapTrigger) + DroppedIn(s, steps, Covered)
  }

  lemma {:induction false} MessagesConcat(xs: seq<Entry>, ys: seq<Entry>)
    ensures MessagesIn(xs + ys) == MessagesIn(xs) + MessagesIn(ys)
    decreases xs
  {
    if xs == [] {
      assert xs + ys == ys;
    } else {
      assert (xs + ys)[1..] == xs[1..] + ys;
      MessagesConcat(xs[1..], ys);
    }
  }

  lemma AddToEither<T>(first: multiset<T>, rest: multiset<T>, kept: multiset<T>, left: multiset<T>)
    requires rest == kept + left
    ensures first + rest == (first + kept) + left == kept + (first + left)
  {}

  lemma MessagesCons(e: Entry, es: seq<Entry>)
    ensures multiset(MessagesIn([e] + es)) == multiset(MessagesIn([e])) + multiset(MessagesIn(es))
  {
    MessagesConcat([e], es);
  }

  lemma {:induction false} SplitByNumber(es: seq<Entry>, n: Sequence)
    ensures multiset(MessagesIn(es)) == multiset(MessagesIn(Newer(es, n))) + multiset(MessagesIn(NotNewer(es, n)))
  {
    if es != [] {
      var e, rest := es[0], es[1..];
      var kept, left := Newer(rest, n), NotNewer(rest, n);
      SplitByNumber(rest, n);
      AddToEither(multiset(MessagesIn([e])), multiset(MessagesIn(rest)), multiset(MessagesIn(kept)), multiset(MessagesIn(left)));
      assert es == [e] + rest;
      MessagesCons(e, rest);
      if e.Sequence() > n {
        assert Newer(es, n) == [e] + kept && NotNewer(es, n) == left;
        MessagesCons(e, kept);
      } else {
        assert Newer(es, n) == kept && NotNewer(es, n) == [e] + left;
        MessagesCons(e, left);
      }
    }
  }

  lemma InstallConserves(s: State, n: Sequence, content: Option<OrderBooks.Book>)
    ensures multiset(MessagesIn(Log(s))) == multiset(MessagesIn(Log(Install(s, n, content)))) + multiset(MessagesIn(NotNewer(s.queue, n)))
  {
    var t := Install(s, n, content);
    SplitByNumber(s.queue, n);
    MessagesConcat(s.delivered + s.batch, s.queue);
    MessagesConcat(s.delivered + s.batch, t.queue);
    assert t.queue[1..] == [];
    assert MessagesIn(t.queue) == MessagesIn(Newer(s.queue, n));
  }

  /** A received message is queued, last, or dropped. */
  lemma ReceiveKeepsOrDrops(s: State, m: FeedMessage)
    ensures if s.requesting || m.sequence == s.last + 1
            then MessagesIn(Log(Next(s, Receive(m)))) == MessagesIn(Log(s)) + [m] && DroppedNow(s, Receive(m)) == multiset{}
            else Log(Next(s, Receive(m))) == Log(s) && DroppedNow(s, Receive(m)) == multiset{m}
  {
    var t := Next(s, Receive(m));
    if s.requesting || m.sequence == s.last + 1 {
      assert Log(t) == Log(s) + [Live(m)];
      MessagesConcat(Log(s), [Live(m)]);
      assert [Live(m)][1..] == [] && MessagesIn([Live(m)]) == [m];
    }
  }

  lemma FetchConserves(s: State, reply: Reply)
    ensures multiset(MessagesIn(Log(s))) == multiset(MessagesIn(Log(Next(s, FetchComplete(reply))))) + DroppedNow(s, FetchComplete(reply))
  {
    if s.fetch == Running && Usable(reply) {
      var n := reply.sequence.value;
      InstallConserves(s, n, reply.content);
      assert DroppedNow(s, FetchComplete(reply)) == multiset(MessagesIn(NotNewer(s.queue, n)));
    } else {
      assert Log(Next(s, FetchComplete(reply))) == Log(s);
      assert DroppedNow(s, FetchComplete(reply)) == multiset{};
    }
  }

  lemma ReceivedOne(step: Step)
    ensures Received([step]) == if step.Receive? then [step.message] else []
  {
    assert [step][1..] == [] && Received([step][1..]) == [];
  }

  /** The message loop moves entries along without changing the log. */
  lemma LoopKeepsLog(s: State, step: Step)
    requires step.Drain? || step.DeliverNext?
    ensures Log(Next(s, step)) == Log(s) && DroppedNow(s, step) == multiset{}
  {}

  lemma StepConserves(s: State, step: Step)
    ensures multiset(MessagesIn(Log(s))) + multiset(Received([step])) == multiset(MessagesIn(Log(Next(s, step)))) + DroppedNow(s, step)
  {
    ReceivedOne(step);
    match step
    case Receive(m) =>
      var held := MessagesIn(Log(s));
      ReceiveKeepsOrDrops(s, m);
      assert multiset(held + [m]) == multiset(held) + multiset{m};
    case FetchComplete(reply) =>
      FetchConserves(s, reply);
    case _ =>
      LoopKeepsLog(s, step);
  }

  lemma BalancesAddUp<T>(held: multiset<T>, got: multiset<T>, mid: multiset<T>, lost: multiset<T>,
                        got': multiset<T>, end: multiset<T>, lost': multiset<T>)
    requires held + got == mid + lost && mid + got' == end + lost'
    ensures held + (got + got') == end + (lost + lost')
  {
    assert held + (got + got') == mid + lost + got';
    assert mid + lost + got' == end + lost' + lost;
  }

  lemma SumByCause<T>(a: multiset<T>, b: multiset<T>, c: multiset<T>, a': multiset<T>, b': multiset<T>, c': multiset<T>)
    ensures (a + a') + (b + b') + (c + c') == (a + b + c) + (a' + b' + c')
  {}

  lemma DroppedSplits(s: State, steps: seq<Step>)
    requires steps != []
    ensures DroppedTotal(s, steps) == DroppedNow(s, steps[0]) + DroppedTotal(Next(s, steps[0]), steps[1..])
  {
    var t, rest := Next(s, steps[0]), steps[1..];
    SumByCause(Dropped(s, steps[0], TooOld), Dropped(s, steps[0], GapTrigger), Dropped(s, steps[0], Covered),
               DroppedIn(t, rest, TooOld), DroppedIn(t, rest, GapTrigger), DroppedIn(t, rest, Covered));
  }

  /** Over every run, each received message is held exactly once, or was dropped exactly once for
      one of the three causes. */
  lemma {:induction false} RunConserves(s: State, steps: seq<Step>)
    ensures multiset(MessagesIn(Log(s))) + multiset(Received(steps))
         == multiset(MessagesIn(Log(Run(s, steps)))) + DroppedTotal(s, steps)
    decreases steps
  {
    if steps != [] {
      var step, rest := steps[0], steps[1..];
      var t := Next(s, step);
      StepConserves(s, step);
      RunConserves(t, rest);
      RunConcat(s, [step], rest);
      assert steps == [step] + rest;
      DroppedSplits(s, steps);
      BalancesAddUp(multiset(MessagesIn(Log(s))), multiset(Received([step])), multiset(MessagesIn(Log(t))), DroppedNow(s, step),
                    multiset(Received(rest)), multiset(MessagesIn(Log(Run(s, steps)))), DroppedTotal(t, rest));
    }
  }

  // Order.

  /** xs is a subsequence of ys. */
  ghost predicate Embeds<T(!new)>(xs: seq<T>, ys: seq<T>) {
    xs == [] || (ys != [] && ((xs[0] == ys[0] && Embeds(xs[1..], ys[1..])) || Embeds(xs, ys[1..])))
  }

  lemma {:induction false} EmbedsLonger<T(!new)>(xs: seq<T>, ys: seq<T>, more: seq<T>)
    requires Embeds(xs, ys)
    ensures Embeds(xs, more + ys)
    decreases more
  {
    if more == [] {
      assert more + ys == ys;
    } else {
      assert (more + ys)[1..] == more[1..] + ys;
      EmbedsLonger(xs, ys, more[1..]);
    }
  }

  lemma {:induction false} EmbedsConcat<T(!new)>(xs: seq<T>, ys: seq<T>, us: seq<T>, vs: seq<T>)
    requires Embeds(xs, ys) && Embeds(us, vs)
    ensures Embeds(xs + us, ys + vs)
    decreases ys
  {
    if xs == [] {
      assert xs + us == us;
      EmbedsLonger(us, vs, ys);
    } else {
      assert (ys + vs)[1..] == ys[1..] + vs && (xs + us)[1..] == xs[1..] + us;
      if xs[0] == ys[0] && Embeds(xs[1..], ys[1..]) {
        EmbedsConcat(xs[1..], ys[1..], us, vs);
      } else {
        EmbedsConcat(xs, ys[1..], us, vs);
      }
    }
  }

  lemma {:induction false} EmbedsItself<T(!new)>(xs: seq<T>)
    ensures Embeds(xs, xs)
  {
    if xs != [] {
      EmbedsItself(xs[1..]);
    }
  }

  lemma {:induction false} EmbedsTransitive<T(!new)>(xs: seq<T>, ys: seq<T>, zs: seq<T>)
    requires Embeds(xs, ys) && Embeds(ys, zs)
    ensures Embeds(xs, zs)
    decreases zs
  {
    if xs != [] {
      if ys[0] == zs[0] && Embeds(ys[1..], zs[1..]) {
        if xs[0] == ys[0] && Embeds(xs[1..], ys[1..]) {
          EmbedsTransitive(xs[1..], ys[1..], zs[1..]);
        } else {
          EmbedsTransitive(xs, ys[1..], zs[1..]);
        }
      } else {
        EmbedsTransitive(xs, ys, zs[1..]);
      }
    }
  }

  lemma {:induction false} EmbedsMembers<T(!new)>(xs: seq<T>, ys: seq<T>)
    requires Embeds(xs, ys)
    ensures forall x :: x in xs ==> x in ys
    decreases ys
  {
    if xs != [] {
      assert xs == [xs[0]] + xs[1..];
      if xs[0] == ys[0] && Embeds(xs[1..], ys[1..]) {
        EmbedsMembers(xs[1..], ys[1..]);
      } else {
        EmbedsMembers(xs, ys[1..]);
      }
    }
  }

  lemma {:induction false} NewerEmbeds(es: seq<Entry>, n: Sequence)
    ensures Embeds(MessagesIn(Newer(es, n)), MessagesIn(es))
  {
    if es != [] {
      var kept := if es[0].Sequence() > n then [es[0]] else [];
      NewerEmbeds(es[1..], n);
      MessagesConcat(kept, Newer(es[1..], n));
      MessagesConcat([es[0]], es[1..]);
      assert es == [es[0]] + es[1..];
      EmbedsItself(MessagesIn([es[0]]));
      EmbedsConcat(MessagesIn(kept), MessagesIn([es[0]]), MessagesIn(Newer(es[1..], n)), MessagesIn(es[1..]));
    }
  }

  lemma InstallKeepsOrder(s: State, n: Sequence, content: Option<OrderBooks.Book>)
    ensures Embeds(MessagesIn(Log(Install(s, n, content))), MessagesIn(Log(s)))
  {
    var t, front := Install(s, n, content), s.delivered + s.batch;
    NewerEmbeds(s.queue, n);
    MessagesConcat(front, s.queue);
    MessagesConcat(front, t.queue);
    assert t.queue[1..] == [] && MessagesIn(t.queue) == MessagesIn(Newer(s.queue, n));
    EmbedsItself(MessagesIn(front));
    EmbedsConcat(MessagesIn(front), MessagesIn(front), MessagesIn(t.queue), MessagesIn(s.queue));
  }

  lemma StepKeepsOrder(s: State, step: Step)
    ensures Embeds(MessagesIn(Log(Next(s, step))), MessagesIn(Log(s)) + Received([step]))
  {
    var held := MessagesIn(Log(s));
    ReceivedOne(step);
    EmbedsItself(held + Received([step]));
    match step
    case Receive(m) =>
      ReceiveKeepsOrDrops(s, m);
      EmbedsItself(held);
      EmbedsConcat(held, held, [], [m]);
      assert held + [] == held;
    case FetchComplete(reply) =>
      assert held + Received([step]) == held;
      if s.fetch == Running && Usable(reply) {
        InstallKeepsOrder(s, reply.sequence.value, reply.content);
      } else {
        assert Log(Next(s, step)) == Log(s);
      }
    case _ =>
      LoopKeepsLog(s, step);
      assert held + Received([step]) == held;
  }

  /** Over every run, the messages held are a subsequence of the messages received: merging and
      handing over never reorders or duplicates them. */
  lemma {:induction false} RunKeepsOrder(s: State, steps: seq<Step>)
    ensures Embeds(MessagesIn(Log(Run(s, steps))), MessagesIn(Log(s)) + Received(steps))
    decreases steps
  {
    var held := MessagesIn(Log(s));
    if steps == [] {
      EmbedsItself(held);
      assert held + [] == held;
    } else {
      var t, rest := Next(s, steps[0]), steps[1..];
      StepKeepsOrder(s, steps[0]);
      RunKeepsOrder(t, rest);
      EmbedsItself(Received(rest));
      EmbedsConcat(MessagesIn(Log(t)), held + Received([steps[0]]), Received(rest), Received(rest));
      RunConcat(s, [steps[0]], rest);
      assert steps == [steps[0]] + rest;
      assert held + Received([steps[0]]) + Received(rest) == held + Received(steps);
      EmbedsTransitive(MessagesIn(Log(Run(s, steps))), MessagesIn(Log(t)) + Received(rest), held + Received(steps));
    }
  }

  // The requesting mode.

  function AllLive(ms: seq<FeedMessage>): seq<Entry> {
    if ms == [] then [] else [Live(ms[0])] + AllLive(ms[1..])
  }

  /** The first reply of a run. */
  function FirstReply(steps: seq<Step>): Option<Reply> {
    if steps == [] then None
    else if steps[0].FetchComplete? then Some(steps[0].reply)
    else FirstReply(steps[1..])
  }

  /** The request thread still runs, and the first reply has a sequence number other than zero; whether
      it has bids and asks is not asked. */
  ghost predicate WillSynchronise(s: State, steps: seq<Step>) {
    s.fetch == Running && FirstReply(steps).Some? &&
      match FirstReply(steps).value
      case Empty => false
      case Reply(number, _) => number.Some? && number.value > 0
  }

  /** While no usable reply arrives in time, the run only buffers: nothing leaves the queue, every
      received message is appended to it, and nothing new is handed over. */
  lemma {:induction false} OnlyBuffers(s: State, steps: seq<Step>)
    requires s.requesting && s.fetch != Installed && !WillSynchronise(s, steps)
    ensures var t := Run(s, steps);
      && t.requesting && t.last == s.last
      && t.queue == s.queue + AllLive(Received(steps))
      && t.delivered + t.batch == s.delivered + s.batch
      && (FirstReply(steps) == None ==> t.fetch == s.fetch)
    decreases steps
  {
    if steps != [] {
      var t := Next(s, steps[0]);
      BuffersOne(s, steps[0]);
      OnlyBuffers(t, steps[1..]);
      ReceivedOne(steps[0]);
      RunConcat(s, [steps[0]], steps[1..]);
      assert steps == [steps[0]] + steps[1..];
      AllLiveConcat(Received([steps[0]]), Received(steps[1..]));
      assert t.queue + AllLive(Received(steps[1..])) == s.queue + (AllLive(Received([steps[0]])) + AllLive(Received(steps[1..])));
    }
  }

  lemma BuffersOne(s: State, step: Step)
    requires s.requesting && s.fetch != Installed && !(step.FetchComplete? && s.fetch == Running && Usable(step.reply))
    ensures var t := Next(s, step);
      && t.requesting && t.last == s.last && t.fetch == (if step.FetchComplete? then Failed else s.fetch)
      && t.queue == s.queue + AllLive(Received([step]))
      && t.delivered + t.batch == s.delivered + s.batch
  {
    ReceivedOne(step);
    if step.Receive? {
      assert [step.message][1..] == [];
    }
  }

  lemma {:induction false} AllLiveConcat(xs: seq<FeedMessage>, ys: seq<FeedMessage>)
    ensures AllLive(xs + ys) == AllLive(xs) + AllLive(ys)
    decreases xs
  {
    if xs == [] {
      assert xs + ys == ys;
    } else {
      assert (xs + ys)[1..] == xs[1..] + ys;
      AllLiveConcat(xs[1..], ys);
    }
  }

  lemma {:induction false} PrefixReply(steps: seq<Step>, k: nat)
    requires k <= |steps|
    ensures FirstReply(steps[..k]).Some? ==> FirstReply(steps) == FirstReply(steps[..k])
  {
    if k > 0 && !steps[0].FetchComplete? {
      PrefixReply(steps[1..], k - 1);
      assert steps[..k][1..] == steps[1..][..k - 1];
    }
  }

  lemma {:induction false} UsableReplySynchronises(s: State, steps: seq<Step>) returns (k: nat)
    requires s.requesting && WillSynchronise(s, steps)
    ensures k <= |steps| && !Run(s, steps[..k]).requesting
    decreases steps
  {
    if steps[0].FetchComplete? {
      k := 1;
      assert steps[..1][1..] == [];
    } else {
      var j := UsableReplySynchronises(Next(s, steps[0]), steps[1..]);
      k := j + 1;
      assert steps[..k][1..] == steps[1..][..j];
    }
  }

  /** A product that is requesting its book leaves that mode during a run exactly when its request
      thread is still running and the first reply is usable. A failed request is never repeated. */
  lemma LeavesRequestingIff(s: State, steps: seq<Step>)
    requires Inv(s) && s.requesting
    ensures (exists k :: 0 <= k <= |steps| && !Run(s, steps[..k]).requesting) <==> WillSynchronise(s, steps)
  {
    if WillSynchronise(s, steps) {
      var k := UsableReplySynchronises(s, steps);
    } else {
      forall k | 0 <= k <= |steps| ensures Run(s, steps[..k]).requesting {
        PrefixReply(steps, k);
        OnlyBuffers(s, steps[..k]);
      }
    }
  }
}
