/** When the book never goes back: runs whose order books are not older than what the product had
    already accepted when it asked for them. */
module NoRegress {
  import OrderBooks
  import ProductChanges
  import MapBooks
  import opened Messages
  import opened FeedProduct
  import opened Invariants
  import Exchange

  /** A state with the last number accepted before the current request, and how many accepted
      entries were left in the queue at that point. */
  datatype Tracked = Tracked(s: State, mark: Sequence, left: nat)

  const Start := Tracked(Initial, 0, 0)

  function Track(t: Tracked, step: Step): Tracked {
    var s := Next(t.s, step);
    if !t.s.requesting && s.requesting then Tracked(s, t.s.last, |t.s.queue|) else t.(s := s)
  }

  /** The request thread of a tracked state is about to install this reply. */
  predicate Installs(s: State, step: Step) {
    step.FetchComplete? && s.fetch == Running && Usable(step.reply)
  }

  function Buffered(t: Tracked): seq<Entry> {
    if t.left <= |t.s.queue| then t.s.queue[t.left..] else []
  }

  /** An order book is at least as new as the last message accepted before it was requested. */
  ghost predicate CurrentStep(t: Tracked, step: Step) {
    Installs(t.s, step) ==> t.mark <= step.reply.sequence.value
  }

  ghost predicate Current(t: Tracked, steps: seq<Step>)
    decreases steps
  {
    steps == [] || (CurrentStep(t, steps[0]) && Current(Track(t, steps[0]), steps[1..]))
  }

  /** The number of an entry is not above its head. */
  ghost predicate Settled(e: Entry) {
    e.Sequence() <= Head(e)
  }

  /** Within an entry, and from each entry to the next, sequence numbers never decrease. */
  ghost predicate NeverBack(es: seq<Entry>) {
    && (forall i :: 0 <= i < |es| ==> Settled(es[i]))
    && (forall i, j :: 0 <= i < j == i + 1 < |es| ==> Head(es[i]) <= es[j].Sequence())
  }

  /** What was accepted before the current request, or everything. */
  function Kept(t: Tracked): seq<Entry> {
    if t.s.requesting && t.left <= |t.s.queue| then t.s.delivered + t.s.batch + t.s.queue[..t.left] else Log(t.s)
  }

  /** The part of the protocol's invariant that is needed here. */
  ghost predicate Mode(s: State) {
    && (s.requesting <==> s.fetch != Installed)
    && (!s.requesting ==> Log(s) != [] && Head(Log(s)[|Log(s)| - 1]) == s.last)
  }

  ghost predicate TrackedInv(t: Tracked) {
    && Mode(t.s)
    && NeverBack(Kept(t))
    && (t.s.requesting ==>
      && t.left <= |t.s.queue|
      && (Kept(t) != [] ==> Head(Kept(t)[|Kept(t)| - 1]) <= t.mark))
  }

  lemma NeverBackSnoc(es: seq<Entry>, e: Entry)
    requires NeverBack(es) && Settled(e) && (es != [] ==> Head(es[|es| - 1]) <= e.Sequence())
    ensures NeverBack(es + [e])
  {}

  lemma NeverBackPrefix(xs: seq<Entry>, ys: seq<Entry>)
    requires NeverBack(xs + ys)
    ensures NeverBack(xs)
  {
    assert forall i :: 0 <= i < |xs| ==> (xs + ys)[i] == xs[i];
  }

  /** In a log that never goes back, nothing lies above the head of the last entry. */
  lemma {:induction false} HeadsBounded(es: seq<Entry>, n: Sequence)
    requires NeverBack(es) && (es != [] ==> Head(es[|es| - 1]) <= n)
    ensures forall e :: e in es ==> e.Sequence() <= Head(e) <= n
    decreases |es|
  {
    if es != [] {
      var k := |es| - 1;
      assert es == es[..k] + [es[k]] && Settled(es[k]);
      NeverBackPrefix(es[..k], [es[k]]);
      assert k > 0 ==> es[..k][k - 1] == es[k - 1];
      HeadsBounded(es[..k], n);
    }
  }

  lemma {:induction false} NewerNone(es: seq<Entry>, n: Sequence)
    requires forall e :: e in es ==> e.Sequence() <= n
    ensures Newer(es, n) == []
  {
    if es != [] {
      assert es[0] in es;
      NewerNone(es[1..], n);
    }
  }

  /** The entries left in the queue when the current request was made. */
  function Leftovers(t: Tracked): seq<Entry> {
    if t.left <= |t.s.queue| then t.s.queue[..t.left] else t.s.queue
  }

  lemma KeptIsOld(t: Tracked)
    requires TrackedInv(t) && t.s.requesting
    ensures forall e :: e in t.s.delivered + t.s.batch ==> Head(e) <= t.mark
    ensures forall e :: e in Leftovers(t) ==> e.Sequence() <= t.mark
  {
    var front := t.s.delivered + t.s.batch;
    HeadsBounded(Kept(t), t.mark);
    assert Kept(t) == front + Leftovers(t);
    assert forall e :: e in front || e in Leftovers(t) ==> e in front + Leftovers(t);
  }

  /** Only what was buffered since the request is merged. */
  lemma OnlyBufferedMerges(t: Tracked, n: Sequence)
    requires forall e :: e in Leftovers(t) ==> e.Sequence() <= n
    ensures Newer(t.s.queue, n) == Newer(Buffered(t), n)
  {
    NewerNone(Leftovers(t), n);
    Exchange.NewerConcat(Leftovers(t), Buffered(t), n);
    assert t.s.queue == Leftovers(t) + Buffered(t);
  }

  lemma TrackInstall(t: Tracked, step: Step)
    requires TrackedInv(t) && CurrentStep(t, step) && Installs(t.s, step) && Mode(Next(t.s, step))
    ensures TrackedInv(Track(t, step))
  {
    var t', n := Track(t, step), step.reply.sequence.value;
    var front, left := t.s.delivered + t.s.batch, t.s.queue[..t.left];
    KeptIsOld(t);
    assert Kept(t) == front + left;
    NeverBackPrefix(front, left);
    assert front != [] ==> front[|front| - 1] in front;
    var e := Snapshot(n, step.reply.content, Newer(t.s.queue, n));
    NewerMembers(t.s.queue, n);
    assert e.toMerge != [] ==> e.toMerge[|e.toMerge| - 1] in e.toMerge;
    NeverBackSnoc(front, e);
    assert Kept(t') == front + [e];
  }

  lemma TrackBuffer(t: Tracked, m: FeedMessage)
    requires TrackedInv(t) && t.s.requesting
    ensures TrackedInv(Track(t, Receive(m)))
  {
    assert Kept(Track(t, Receive(m))) == Kept(t);
  }

  lemma TrackReceive(t: Tracked, m: FeedMessage)
    requires TrackedInv(t) && !t.s.requesting && Mode(Next(t.s, Receive(m)))
    ensures TrackedInv(Track(t, Receive(m)))
  {
    var t' := Track(t, Receive(m));
    if t'.s.requesting {
      assert t'.s.queue[..t'.left] == t'.s.queue;
      assert Kept(t') == Kept(t);
    } else if t'.s.queue != t.s.queue {
      NeverBackSnoc(Kept(t), Live(m));
      assert Kept(t') == Kept(t) + [Live(m)];
    }
  }

  lemma LoopKeeps(t: Tracked, step: Step)
    requires !step.Receive? && !Installs(t.s, step)
    ensures var t' := Track(t, step);
      && Kept(t') == Kept(t) && t'.left == t.left && t'.mark == t.mark && t'.s.requesting == t.s.requesting
      && (t.s.requesting ==> t'.s.queue == t.s.queue)
  {
    var s, s' := t.s, Next(t.s, step);
    if step.DeliverNext? && s.batch != [] {
      assert s'.delivered + s'.batch == s.delivered + s.batch;
    } else if step.Drain? && s.batch == [] && !s.requesting {
      assert Log(s') == Log(s);
    }
  }

  lemma TrackLoop(t: Tracked, step: Step)
    requires TrackedInv(t) && !step.Receive? && !Installs(t.s, step) && Mode(Next(t.s, step))
    ensures TrackedInv(Track(t, step))
  {
    LoopKeeps(t, step);
  }

  lemma TrackStep(t: Tracked, step: Step)
    requires TrackedInv(t) && CurrentStep(t, step) && Mode(Next(t.s, step))
    ensures TrackedInv(Track(t, step))
  {
    if Installs(t.s, step) {
      TrackInstall(t, step);
    } else if !step.Receive? {
      TrackLoop(t, step);
    } else if t.s.requesting {
      TrackBuffer(t, step.message);
    } else {
      TrackReceive(t, step.message);
    }
  }

  function TrackAll(t: Tracked, steps: seq<Step>): Tracked
    decreases steps
  {
    if steps == [] then t else TrackAll(Track(t, steps[0]), steps[1..])
  }

  lemma {:induction false} TrackRun(t: Tracked, steps: seq<Step>)
    requires Inv(t.s) && TrackedInv(t) && Current(t, steps)
    ensures TrackedInv(TrackAll(t, steps)) && TrackAll(t, steps).s == Run(t.s, steps)
    decreases steps
  {
    if steps != [] {
      InvStep(t.s, steps[0]);
      TrackStep(t, steps[0]);
      TrackRun(Track(t, steps[0]), steps[1..]);
    }
  }

  lemma {:induction false} NeverBackApart(es: seq<Entry>, i: nat, j: nat)
    requires NeverBack(es) && i < j < |es|
    ensures Head(es[i]) <= es[j].Sequence() && Settled(es[j])
    decreases j
  {
    if i < j - 1 {
      NeverBackApart(es, i, j - 1);
    }
  }

  lemma DeliveredNeverBack(t: Tracked)
    requires TrackedInv(t)
    ensures NeverBack(t.s.delivered)
  {
    var rest := if t.s.requesting then t.s.batch + t.s.queue[..t.left] else t.s.batch + t.s.queue;
    assert Kept(t) == t.s.delivered + rest;
    NeverBackPrefix(t.s.delivered, rest);
  }

  /** In such a run, whatever was buffered, what is handed over later is never older: the head of an
      entry is at or below the number of every later entry. */
  lemma BookNeverGoesBack(steps: seq<Step>, i: nat, j: nat)
    requires Current(Start, steps) && i < j < |Run(Initial, steps).delivered|
    ensures var delivered := Run(Initial, steps).delivered; Head(delivered[i]) <= delivered[j].Sequence() <= Head(delivered[j])
  {
    TrackRun(Start, steps);
    DeliveredNeverBack(TrackAll(Start, steps));
    NeverBackApart(Run(Initial, steps).delivered, i, j);
  }

  // Order inside an entry.

  /** Feed messages in order of their numbers. */
  ghost predicate Sorted(es: seq<Entry>) {
    es == [] || (es[0].Live? && (forall e :: e in es[1..] ==> es[0].Sequence() <= e.Sequence()) && Sorted(es[1..]))
  }

  /** What is buffered does not decrease, or the order book has reached the floor of the queue. */
  ghost predicate OrderedStep(t: Tracked, step: Step) {
    Installs(t.s, step) ==> Sorted(Buffered(t)) || Exchange.Floor(t.s.queue) <= step.reply.sequence.value
  }

  ghost predicate Ordered(t: Tracked, steps: seq<Step>)
    decreases steps
  {
    steps == [] || (OrderedStep(t, steps[0]) && Ordered(Track(t, steps[0]), steps[1..]))
  }

  ghost predicate MergedSorted(es: seq<Entry>) {
    forall e :: e in es && e.Snapshot? ==> Sorted(e.toMerge)
  }

  lemma {:induction false} NewerSorted(es: seq<Entry>, n: Sequence)
    requires Sorted(es)
    ensures Sorted(Newer(es, n))
  {
    if es != [] {
      var rest := Newer(es[1..], n);
      NewerSorted(es[1..], n);
      NewerMembers(es[1..], n);
      assert ([es[0]] + rest)[1..] == rest && [] + rest == rest;
    }
  }

  lemma {:induction false} GapFreeSorted(es: seq<Entry>, n: nat)
    requires Exchange.GapFree(es, n)
    ensures Sorted(es)
  {
    if es != [] {
      assert es == [es[0]] + es[1..];
      Exchange.GapFreeCons(es[0], es[1..], n);
      GapFreeSorted(es[1..], n + 1);
    }
  }

  lemma InstallMergesSorted(t: Tracked, n: Sequence)
    requires TrackedInv(t) && t.s.requesting && t.mark <= n
    requires Sorted(Buffered(t)) || Exchange.Floor(t.s.queue) <= n
    ensures Sorted(Newer(t.s.queue, n))
  {
    if Sorted(Buffered(t)) {
      KeptIsOld(t);
      OnlyBufferedMerges(t, n);
      NewerSorted(Buffered(t), n);
    } else {
      Exchange.GapFreeIff(t.s.queue, n);
      GapFreeSorted(Newer(t.s.queue, n), n);
    }
  }

  lemma MergedInOrderStep(t: Tracked, step: Step)
    requires TrackedInv(t) && CurrentStep(t, step) && OrderedStep(t, step) && MergedSorted(Log(t.s))
    ensures MergedSorted(Log(Track(t, step).s))
  {
    var s, s' := t.s, Track(t, step).s;
    if Installs(s, step) {
      InstallMergesSorted(t, step.reply.sequence.value);
    } else if step.Receive? {
      assert s'.queue != s.queue ==> Log(s') == Log(s) + [Live(step.message)];
    } else {
      LoopKeepsEntries(s, step);
    }
  }

  lemma LoopKeepsEntries(s: State, step: Step)
    requires !step.Receive? && !Installs(s, step)
    ensures Log(Next(s, step)) == Log(s)
  {}

  /** If, in addition, what is buffered does not decrease, or has no hole above the order book, then
      what is merged into an order book is in order. */
  lemma {:induction false} MergedInOrder(t: Tracked, steps: seq<Step>)
    requires Inv(t.s) && TrackedInv(t) && Current(t, steps) && Ordered(t, steps) && MergedSorted(Log(t.s))
    ensures MergedSorted(Log(Run(t.s, steps)))
    decreases steps
  {
    if steps != [] {
      InvStep(t.s, steps[0]);
      TrackStep(t, steps[0]);
      MergedInOrderStep(t, steps[0]);
      MergedInOrder(Track(t, steps[0]), steps[1..]);
    }
  }

  // Conditions on messages and replies that a client can check, if it can tell the messages of the
  // history from the others, make a run faithful.

  /** Acceptable messages, in any order and with any repetitions, and true order books: not older than
      the last accepted message, not below the floor of the messages of the history in the queue, and
      such that the last message above them, of the history or not, has the number of the last of these. */
  ghost predicate CheckedStep(x: Exchange.History, t: Tracked, step: Step) {
    && (step.Receive? ==> Exchange.Acceptable(x, t.s, step.message))
    && (Installs(t.s, step) ==>
      var n := step.reply.sequence.value;
      && x.TrueBook(n, step.reply.content)
      && t.mark <= n && Exchange.Floor(x.Counted(t.s.queue)) <= n
      && LastOf(Newer(t.s.queue, n), n) == LastOf(Newer(x.Counted(t.s.queue), n), n))
  }

  ghost predicate Checked(x: Exchange.History, t: Tracked, steps: seq<Step>)
    decreases steps
  {
    steps == [] || (CheckedStep(x, t, steps[0]) && Checked(x, Track(t, steps[0]), steps[1..]))
  }

  /** In every order book, the merged messages of the history are consecutive from its number on. */
  ghost predicate MergedCount(x: Exchange.History, es: seq<Entry>) {
    forall e :: e in es && e.Snapshot? ==> Exchange.GapFree(x.Counted(e.toMerge), e.number)
  }

  lemma CheckedStepIsFaithful(x: Exchange.History, t: Tracked, step: Step)
    requires Exchange.SoundState(x, t.s) && CheckedStep(x, t, step) && MergedCount(x, Log(t.s))
    ensures Exchange.FaithfulStep(x, t.s, step) && MergedCount(x, Log(Next(t.s, step)))
  {
    var s, s' := t.s, Next(t.s, step);
    if Installs(s, step) {
      Exchange.FloorCounts(x, s.queue, step.reply.sequence.value);
    } else if step.Receive? {
      assert s'.queue != s.queue ==> Log(s') == Log(s) + [Live(step.message)];
    } else {
      LoopKeepsEntries(s, step);
    }
  }

  lemma {:induction false} CheckedIsFaithful(x: Exchange.History, t: Tracked, steps: seq<Step>)
    requires Exchange.SoundState(x, t.s) && MergedCount(x, Log(t.s)) && Checked(x, t, steps)
    ensures Exchange.Faithful(x, t.s, steps) && Current(t, steps) && MergedCount(x, Log(Run(t.s, steps)))
    decreases steps
  {
    if steps != [] {
      CheckedStepIsFaithful(x, t, steps[0]);
      Exchange.SoundStep(x, t.s, steps[0]);
      CheckedIsFaithful(x, Track(t, steps[0]), steps[1..]);
    }
  }

  /** The local book follows the exchange, and never backwards, and the messages of the history that it
      merges are consecutive, in every run that meets the conditions, across any number of gaps and new
      order books, and whatever inert messages the feed repeats numbers with. */
  lemma CheckedRunsTrackExchange(x: Exchange.History, steps: seq<Step>, productId: string, b: OrderBooks.Book, i: nat)
    requires x.Valid() && Checked(x, Start, steps) && MapBooks.DistinctBook(b)
    requires i < |Run(Initial, steps).delivered|
    ensures var delivered := Run(Initial, steps).delivered;
      var local := ProductChanges.ApplyAll(b, TranslateAll(productId, delivered[..i + 1]));
      && Head(delivered[i]) <= |x.events|
      && MapBooks.DistinctBook(local) && MapBooks.AsMap(local) == x.At(Head(delivered[i]))
      && (i > 0 ==> Head(delivered[i - 1]) <= delivered[i].Sequence() <= Head(delivered[i]))
      && (delivered[i].Snapshot? ==> Exchange.GapFree(x.Counted(delivered[i].toMerge), delivered[i].number))
  {
    CheckedIsFaithful(x, Start, steps);
    Exchange.LocalBookTracksExchange(x, steps, productId, b, i);
    if i > 0 {
      BookNeverGoesBack(steps, i - 1, i);
    }
    var s := Run(Initial, steps);
    assert s.delivered[i] == (s.delivered + s.batch + s.queue)[i];
  }
}
