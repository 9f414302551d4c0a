/** The exchange the feed reports on, and the refinement of its book by the local one across any
    number of gaps and new full order books. */
module Exchange {
  import opened OrderBooks
  import opened ProductChanges
  import opened MapBooks
  import opened Messages
  import opened FeedProduct
  import opened Invariants
  import Reordering
  import Schedule

  function EffectM(m: MapBook, msg: FeedMessage): MapBook {
    if Decode(msg).Some? then ApplyEventM(m, Decode(msg).value) else m
  }

  /** The true history of a product: the book it started with and every message, by sequence number. */
  datatype History = History(start: MapBook, events: seq<FeedMessage>) {
    /** The true book after the message numbered k. */
    function At(k: nat): MapBook
      requires k <= |events|
    {
      if k == 0 then start else EffectM(At(k - 1), events[k - 1])
    }

    /** Messages are numbered from one, and an order is opened under an id that is new on its side. */
    ghost predicate Numbered(k: nat)
      requires 0 < k <= |events|
    {
      && events[k - 1].sequence == k
      && (Decode(events[k - 1]).Some? ==> Fresh(At(k - 1), Decode(events[k - 1]).value))
    }

    ghost predicate Valid() {
      forall k :: 0 < k <= |events| ==> Numbered(k)
    }

    ghost predicate Authentic(m: FeedMessage) {
      0 < m.sequence <= |events| && m == events[m.sequence - 1]
    }

    /** A full order book numbered n with the content of the true one, in any order. */
    ghost predicate TrueBook(n: nat, content: Option<Book>) {
      && n <= |events| && content.Some?
      && DistinctBook(content.value) && AsMap(content.value) == At(n)
    }

    /** The message numbered k has nothing to do on the true book before it. */
    ghost predicate Needless(k: nat)
      requires 0 < k <= |events|
    {
      Inert(events[k - 1]) || Reordering.Idle(At(k - 1), Decode(events[k - 1]).value)
    }

    /** The true message of its number, or an inert one in the place of one that has nothing to do. */
    ghost predicate Credible(m: FeedMessage) {
      0 < m.sequence <= |events| && (m == events[m.sequence - 1] || (Inert(m) && Needless(m.sequence)))
    }

    /** The true books after the messages of these two numbers are the same. */
    ghost predicate Level(p: nat, l: nat) {
      p <= |events| && l <= |events| && At(p) == At(l)
    }

    /** The number to which entries count from n, if they do: a true message counts on by one, an
        inert one that does not is passed over, whatever its number, and an order book counts from its
        own number, through what is merged into it. */
    ghost function Reach(es: seq<Entry>, n: nat): Option<nat> {
      if es == [] then Some(n)
      else match es[0]
        case Live(m) =>
          if Authentic(m) && m.sequence == n + 1 then Reach(es[1..], n + 1)
          else if Inert(m) then Reach(es[1..], n)
          else None
        case Snapshot(k, _, toMerge) =>
          match Reach(toMerge, k)
          case Some(p) => Reach(es[1..], p)
          case None => None
    }

    /** The entries count from n, and the number that the protocol takes for the last one has the same
        book as the number they reach. */
    ghost predicate CountsOn(es: seq<Entry>, n: Sequence) {
      Reach(es, n).Some? && Level(Reach(es, n).value, LastOf(es, n))
    }

    /** What may be buffered: true messages, inert messages of any number, and sound order books. */
    ghost predicate Heard(e: Entry)
      decreases e, 1
    {
      match e
      case Live(m) => Authentic(m) || Inert(m)
      case Snapshot(_, _, _) => Sound(e)
    }

    /** A credible message, or a true full order book from which what is merged into it counts on. */
    ghost predicate Sound(e: Entry)
      decreases e, 0
    {
      match e
      case Live(m) => Credible(m)
      case Snapshot(n, content, toMerge) => TrueBook(n, content) && CountsOn(toMerge, n) && forall m :: m in toMerge ==> Heard(m)
    }

    /** The entries without the messages that are not of the history. */
    ghost function Counted(es: seq<Entry>): seq<Entry> {
      if es == [] then []
      else (if es[0].Live? && !Authentic(es[0].message) then [] else [es[0]]) + Counted(es[1..])
    }
  }

  /** Live entries numbered n + 1, n + 2, and so on. */
  ghost predicate GapFree(es: seq<Entry>, n: nat) {
    forall i :: 0 <= i < |es| ==> es[i].Live? && es[i].Sequence() == n + 1 + i
  }

  /** The product may receive any credible message, and at any time an inert one that does not take
      the number that is expected next. */
  ghost predicate Acceptable(x: History, s: State, m: FeedMessage) {
    x.Credible(m) || (Inert(m) && (s.requesting || m.sequence != s.last + 1))
  }

  /** What the environment provides in a step: acceptable messages, true full order books, and a
      queue that counts on from the number of an order book that is being installed. */
  ghost predicate FaithfulStep(x: History, s: State, step: Step) {
    match step
    case Receive(m) => Acceptable(x, s, m)
    case FetchComplete(reply) =>
      s.fetch == Running && Usable(reply) ==>
        x.TrueBook(reply.sequence.value, reply.content) && x.CountsOn(Newer(s.queue, reply.sequence.value), reply.sequence.value)
    case _ => true
  }

  ghost predicate Faithful(x: History, s: State, steps: seq<Step>)
    decreases steps
  {
    steps == [] || (FaithfulStep(x, s, steps[0]) && Faithful(x, Next(s, steps[0]), steps[1..]))
  }

  ghost predicate SoundLog(x: History, es: seq<Entry>) {
    forall e :: e in es ==> x.Sound(e)
  }

  /** What is buffered was heard; everything else, and the queue of a synchronised product, is sound. */
  ghost predicate SoundState(x: History, s: State) {
    && SoundLog(x, s.delivered + s.batch)
    && (forall e :: e in s.queue ==> x.Heard(e))
    && (!s.requesting ==> SoundLog(x, s.queue))
  }

  lemma SoundStep(x: History, s: State, step: Step)
    requires SoundState(x, s) && FaithfulStep(x, s, step)
    ensures SoundState(x, Next(s, step))
  {
    match step
    case Receive(m) =>
    case FetchComplete(reply) =>
      if s.fetch == Running && Usable(reply) {
        NewerMembers(s.queue, reply.sequence.value);
      }
    case _ => LoopMembers(s, step);
  }

  lemma LoopMembers(s: State, step: Step)
    requires step.Drain? || step.DeliverNext?
    ensures var t := Next(s, step);
      && (forall e :: e in t.queue ==> e in s.queue)
      && (forall e :: e in t.delivered + t.batch ==> e in s.delivered + s.batch || (!s.requesting && e in s.queue))
      && t.requesting == s.requesting
  {
    if step.DeliverNext? && s.batch != [] {
      assert Next(s, step).delivered + Next(s, step).batch == s.delivered + s.batch;
    }
  }

  lemma {:induction false} SoundRun(x: History, s: State, steps: seq<Step>)
    requires SoundState(x, s) && Faithful(x, s, steps)
    ensures SoundState(x, Run(s, steps))
    decreases steps
  {
    if steps != [] {
      SoundStep(x, s, steps[0]);
      SoundRun(x, Next(s, steps[0]), steps[1..]);
    }
  }

  /** The changes are admissible on m and turn it into m'. */
  ghost predicate Leads(m: MapBook, pcs: seq<ProductChange>, m': MapBook) {
    AdmissibleAll(m, pcs) && ApplyAllM(m, pcs) == m'
  }

  lemma LeadsOn(m: MapBook, productId: string, xs: seq<Entry>, mid: MapBook, ys: seq<Entry>, m': MapBook)
    requires Leads(m, TranslateAll(productId, xs), mid) && Leads(mid, TranslateAll(productId, ys), m')
    ensures Leads(m, TranslateAll(productId, xs + ys), m')
  {
    TranslateAllConcat(productId, xs, ys);
    Reordering.ApplyAllMConcat(m, TranslateAll(productId, xs), TranslateAll(productId, ys));
  }

  lemma LeadsOne(m: MapBook, productId: string, e: Entry)
    ensures TranslateAll(productId, [e]) == (match Translate(productId, e) case Some(pc) => [pc] case None => [])
    ensures match Translate(productId, e)
      case Some(pc) => Leads(m, TranslateAll(productId, [e]), ApplyM(m, pc)) <==> Admissible(m, pc)
      case None => Leads(m, TranslateAll(productId, [e]), m)
  {
    assert [e][1..] == [];
    if Translate(productId, e).Some? {
      var pc := Translate(productId, e).value;
      assert TranslateAll(productId, [e]) == [pc] && [pc][1..] == [];
      assert AdmissibleAll(m, [pc]) <==> Admissible(m, pc);
      assert ApplyAllM(m, [pc]) == ApplyM(m, pc);
    }
  }

  lemma NeedlessIff(x: History, k: nat)
    requires 0 < k <= |x.events|
    ensures x.Needless(k) <==> x.At(k) == x.At(k - 1)
  {
    assert x.At(k) == EffectM(x.At(k - 1), x.events[k - 1]);
    if !Inert(x.events[k - 1]) {
      Reordering.IdleIff(x.At(k - 1), Decode(x.events[k - 1]).value);
    }
  }

  lemma LiveFollows(x: History, productId: string, m: FeedMessage)
    requires x.Valid() && x.Credible(m)
    ensures Leads(x.At(m.sequence - 1), TranslateAll(productId, [Live(m)]), x.At(m.sequence))
  {
    assert x.Numbered(m.sequence);
    NeedlessIff(x, m.sequence);
    LeadsOne(x.At(m.sequence - 1), productId, Live(m));
  }

  lemma ResetLeads(any: MapBook, productId: string, e: Entry, m: MapBook)
    requires e.Snapshot? && e.content.Some? && DistinctBook(e.content.value)
    requires Leads(AsMap(e.content.value), TranslateAll(productId, e.toMerge), m)
    ensures Leads(any, TranslateAll(productId, [e]), m)
  {
    LeadsOne(any, productId, e);
    var pc := Translate(productId, e).value;
    assert e.content.value == Book(pc.bids, pc.asks);
    assert ApplyM(any, pc) == m && Admissible(any, pc);
  }

  /** A buffered message counts on by one, or is passed over. */
  lemma HeardLeads(x: History, productId: string, m: FeedMessage, n: nat)
    requires x.Valid() && n <= |x.events| && ((x.Authentic(m) && m.sequence == n + 1) || Inert(m))
    ensures var p := if x.Authentic(m) && m.sequence == n + 1 then n + 1 else n;
      p <= |x.events| && Leads(x.At(n), TranslateAll(productId, [Live(m)]), x.At(p))
  {
    if x.Authentic(m) && m.sequence == n + 1 {
      LiveFollows(x, productId, m);
    } else {
      LeadsOne(x.At(n), productId, Live(m));
    }
  }

  /** Entries that count from n lead from the true book numbered n to the one they reach. */
  lemma {:induction false} ReachLeads(x: History, productId: string, es: seq<Entry>, n: nat)
    requires x.Valid() && (forall e :: e in es ==> x.Heard(e)) && n <= |x.events| && x.Reach(es, n).Some?
    ensures x.Reach(es, n).value <= |x.events|
    ensures Leads(x.At(n), TranslateAll(productId, es), x.At(x.Reach(es, n).value))
    decreases es
  {
    if es != [] {
      var e, rest := es[0], es[1..];
      assert es == [e] + rest && x.Heard(e);
      var p := n;
      if e.Snapshot? {
        assert x.Sound(e);
        p := x.Reach(e.toMerge, e.number).value;
        ReachLeads(x, productId, e.toMerge, e.number);
        ResetLeads(x.At(n), productId, e, x.At(p));
      } else {
        p := if x.Authentic(e.message) && e.Sequence() == n + 1 then n + 1 else n;
        HeardLeads(x, productId, e.message, n);
      }
      ReachLeads(x, productId, rest, p);
      LeadsOn(x.At(n), productId, [e], x.At(p), rest, x.At(x.Reach(es, n).value));
    }
  }

  lemma SnapshotFollows(x: History, productId: string, e: Entry, any: MapBook)
    requires x.Valid() && e.Snapshot? && x.Sound(e)
    ensures Head(e) <= |x.events| && Leads(any, TranslateAll(productId, [e]), x.At(Head(e)))
  {
    ReachLeads(x, productId, e.toMerge, e.number);
    ResetLeads(any, productId, e, x.At(Head(e)));
  }

  /** A sound entry leads to the true book at its head, from any book if it is an order book, and from
      the true book before it if it is a message. */
  lemma EntryFollows(x: History, productId: string, e: Entry, m: MapBook)
    requires x.Valid() && x.Sound(e) && (e.Live? ==> m == x.At(e.Sequence() - 1))
    ensures Head(e) <= |x.events| && Leads(m, TranslateAll(productId, [e]), x.At(Head(e)))
  {
    if e.Live? {
      LiveFollows(x, productId, e.message);
    } else {
      SnapshotFollows(x, productId, e, m);
    }
  }

  lemma LastEntry(x: History, es: seq<Entry>)
    requires SoundLog(x, es) && Epochs(es) && es != []
    ensures var k := |es| - 1;
      && es == es[..k] + [es[k]]
      && x.Sound(es[k]) && SoundLog(x, es[..k]) && Epochs(es[..k])
      && (es[k].Live? ==> k > 0 && es[k].Sequence() == Head(es[..k][k - 1]) + 1)
  {
    assert es[|es| - 1] in es;
  }

  /** A log of epochs, of credible messages and true full order books, replays to the true book at
      its head, from any book at all. */
  lemma {:induction false} LogFollows(x: History, productId: string, es: seq<Entry>, any: MapBook)
    requires x.Valid() && SoundLog(x, es) && Epochs(es) && es != []
    ensures Head(es[|es| - 1]) <= |x.events| && Leads(any, TranslateAll(productId, es), x.At(Head(es[|es| - 1])))
    decreases |es|
  {
    var k := |es| - 1;
    var before, e := es[..k], es[k];
    LastEntry(x, es);
    var mid := ApplyAllM(any, TranslateAll(productId, before));
    if before != [] {
      LogFollows(x, productId, before, any);
    }
    assert Leads(any, TranslateAll(productId, before), mid);
    EntryFollows(x, productId, e, mid);
    LeadsOn(any, productId, before, mid, [e], x.At(Head(e)));
  }

  /** In every faithful run, after each entry handed over, the local book is the true book at the
      head of that entry, order by order, and its ids are distinct. */
  lemma LocalBookTracksExchange(x: History, steps: seq<Step>, productId: string, b: Book, i: nat)
    requires x.Valid() && Faithful(x, Initial, steps) && DistinctBook(b)
    requires i < |Run(Initial, steps).delivered|
    ensures var delivered := Run(Initial, steps).delivered;
      var local := ApplyAll(b, TranslateAll(productId, delivered[..i + 1]));
      && Head(delivered[i]) <= |x.events|
      && DistinctBook(local) && AsMap(local) == x.At(Head(delivered[i]))
  {
    var t := Run(Initial, steps);
    EveryReachableState(steps);
    SoundRun(x, Initial, steps);
    var es := t.delivered[..i + 1];
    assert forall j :: 0 <= j <= i ==> es[j] == (t.delivered + t.batch)[j];
    assert forall e :: e in es ==> e in t.delivered + t.batch;
    LogFollows(x, productId, es, AsMap(b));
    ChangesRefine(b, TranslateAll(productId, es));
  }

  // When does the merge leave no hole above n? It does not look.

  lemma {:induction false} NewerConcat(xs: seq<Entry>, ys: seq<Entry>, n: Sequence)
    ensures Newer(xs + ys, n) == Newer(xs, n) + Newer(ys, n)
    decreases xs
  {
    if xs == [] {
      assert xs + ys == ys;
    } else {
      assert (xs + ys)[1..] == xs[1..] + ys;
      NewerConcat(xs[1..], ys, n);
    }
  }

  /** The least order book number above which the entries of a queue are live and consecutive. */
  function Floor(es: seq<Entry>): nat {
    if es == [] then 0
    else
      var rest, s := Floor(es[1..]), es[0].Sequence();
      if es[0].Live? && 0 < s && rest <= s && (forall e :: e in es[1..] ==> e.Sequence() != s) then s - 1
      else if rest > s then rest else s
  }

  /** Raising the bound by one drops exactly the entries with that number. */
  lemma {:induction false} NewerByOne(es: seq<Entry>, n: Sequence)
    requires n < MAX_SEQUENCE && forall e :: e in es ==> e.Sequence() != n + 1
    ensures Newer(es, n) == Newer(es, n + 1)
  {
    if es != [] {
      assert es[0] in es;
      NewerByOne(es[1..], n);
    }
  }

  lemma GapFreeCons(e: Entry, es: seq<Entry>, n: nat)
    ensures GapFree([e] + es, n) <==> e.Live? && e.Sequence() == n + 1 && GapFree(es, n + 1)
  {
    var longer := [e] + es;
    assert longer[0] == e;
    if GapFree(longer, n) {
      forall i | 0 <= i < |es| ensures es[i].Live? && es[i].Sequence() == n + 2 + i {
        assert longer[i + 1].Sequence() == n + 1 + (i + 1);
      }
    }
    if e.Live? && e.Sequence() == n + 1 && GapFree(es, n + 1) {
      forall i | 0 <= i < |longer| ensures longer[i].Live? && longer[i].Sequence() == n + 1 + i {
        assert i > 0 ==> longer[i] == es[i - 1];
      }
    }
  }

  /** An entry above n at the head of a queue, and the rest of it. */
  lemma GapFreeHead(e: Entry, rest: seq<Entry>, n: Sequence)
    requires e.Sequence() == n + 1
    ensures GapFree(Newer(rest, n), n + 1) <==> GapFree(Newer(rest, n + 1), n + 1) && forall d :: d in rest ==> d.Sequence() != n + 1
  {
    if forall d :: d in rest ==> d.Sequence() != n + 1 {
      NewerByOne(rest, n);
    } else {
      var d :| d in rest && d.Sequence() == n + 1;
      NewerMembers(rest, n);
      var i :| 0 <= i < |Newer(rest, n)| && Newer(rest, n)[i] == d;
      assert d.Sequence() != n + 2 + i;
    }
  }

  /** Merging any queue into a full order book numbered n, whatever it holds and in whatever order,
      leaves live and consecutive entries from n on exactly when n has reached the queue's floor. */
  lemma {:induction false} GapFreeIff(es: seq<Entry>, n: Sequence)
    ensures GapFree(Newer(es, n), n) <==> Floor(es) <= n
  {
    if es != [] {
      var e, rest := es[0], es[1..];
      GapFreeIff(rest, n);
      if e.Sequence() > n {
        GapFreeCons(e, Newer(rest, n), n);
        if e.Sequence() == n + 1 {
          GapFreeIff(rest, n + 1);
          GapFreeHead(e, rest, n);
        }
      } else {
        assert [] + Newer(rest, n) == Newer(rest, n);
      }
    }
  }

  lemma {:induction false} GapFreeLast(es: seq<Entry>, n: Sequence)
    requires GapFree(es, n)
    ensures LastOf(es, n) == n + |es|
  {}

  lemma {:induction false} CountedNewer(x: History, es: seq<Entry>, n: Sequence)
    ensures Newer(x.Counted(es), n) == x.Counted(Newer(es, n))
  {
    if es != [] {
      var e, rest, newer := es[0], es[1..], Newer(es[1..], n);
      CountedNewer(x, rest, n);
      assert [] + x.Counted(rest) == x.Counted(rest) && ([e] + x.Counted(rest))[1..] == x.Counted(rest);
      assert [] + newer == newer && ([e] + newer)[1..] == newer;
      assert [] + x.Counted(newer) == x.Counted(newer) && [] + Newer(x.Counted(rest), n) == Newer(x.Counted(rest), n);
    }
  }

  /** The first entry is passed over, or it is a true message and counts by one. */
  lemma CountedHead(x: History, e: Entry, rest: seq<Entry>, n: nat)
    requires e.Live? ==> x.Authentic(e.message) || Inert(e.message)
    requires GapFree(x.Counted([e] + rest), n)
    ensures var es, k := [e] + rest, |x.Counted(rest)|;
      || (|x.Counted(es)| == k && GapFree(x.Counted(rest), n) && x.Reach(es, n) == x.Reach(rest, n))
      || (|x.Counted(es)| == k + 1 && GapFree(x.Counted(rest), n + 1) && x.Reach(es, n) == x.Reach(rest, n + 1) && n < |x.events|)
  {
    var es := [e] + rest;
    assert es[0] == e && es[1..] == rest;
    if e.Live? && !x.Authentic(e.message) {
      assert x.Counted(es) == [] + x.Counted(rest) == x.Counted(rest);
    } else {
      assert x.Counted(es) == [e] + x.Counted(rest);
      GapFreeCons(e, x.Counted(rest), n);
    }
  }

  /** If the messages of the history among them are consecutive, the entries count to the last of these. */
  lemma {:induction false} CountedReach(x: History, es: seq<Entry>, n: nat)
    requires (forall e :: e in es && e.Live? ==> x.Authentic(e.message) || Inert(e.message))
    requires GapFree(x.Counted(es), n) && n <= |x.events|
    ensures x.Reach(es, n) == Some(n + |x.Counted(es)|) && n + |x.Counted(es)| <= |x.events|
  {
    if es != [] {
      var e, rest := es[0], es[1..];
      assert e in es && es == [e] + rest;
      CountedHead(x, e, rest, n);
      CountedReach(x, rest, if |x.Counted(es)| == |x.Counted(rest)| then n else n + 1);
    }
  }

  lemma ReachesLast(x: History, es: seq<Entry>, n: Sequence)
    requires (forall e :: e in es && e.Live? ==> x.Authentic(e.message) || Inert(e.message)) && n <= |x.events|
    requires GapFree(x.Counted(es), n) && LastOf(es, n) == LastOf(x.Counted(es), n)
    ensures x.Reach(es, n) == Some(LastOf(es, n)) && LastOf(es, n) <= |x.events|
  {
    CountedReach(x, es, n);
    GapFreeLast(x.Counted(es), n);
  }

  lemma FloorGapFree(x: History, es: seq<Entry>, n: Sequence)
    requires Floor(x.Counted(es)) <= n
    ensures GapFree(x.Counted(Newer(es, n)), n)
  {
    GapFreeIff(x.Counted(es), n);
    CountedNewer(x, es, n);
  }

  lemma NewerKnown(x: History, es: seq<Entry>, n: Sequence)
    requires forall e :: e in es ==> x.Heard(e)
    ensures forall e :: e in Newer(es, n) && e.Live? ==> x.Authentic(e.message) || Inert(e.message)
  {
    NewerMembers(es, n);
  }

  /** A queue counts on from an order book that has reached the floor of its messages of the history,
      if the last message above the order book has the number of the last such message. */
  lemma FloorCounts(x: History, es: seq<Entry>, n: Sequence)
    requires (forall e :: e in es ==> x.Heard(e)) && n <= |x.events|
    requires Floor(x.Counted(es)) <= n && LastOf(Newer(es, n), n) == LastOf(Newer(x.Counted(es), n), n)
    ensures x.CountsOn(Newer(es, n), n) && GapFree(x.Counted(Newer(es, n)), n)
  {
    NewerKnown(x, es, n);
    FloorGapFree(x, es, n);
    CountedNewer(x, es, n);
    ReachesLast(x, Newer(es, n), n);
  }

  lemma {:induction false} AllLiveAt(ms: seq<FeedMessage>)
    ensures |AllLive(ms)| == |ms| && forall i :: 0 <= i < |ms| ==> AllLive(ms)[i] == Live(ms[i])
  {
    if ms != [] {
      AllLiveAt(ms[1..]);
      assert forall i :: 0 < i < |ms| ==> ms[i] == ms[1..][i - 1];
    }
  }

  lemma {:induction false} ContiguousFloor(ms: seq<FeedMessage>, first: nat)
    requires Schedule.Contiguous(ms, first)
    ensures Floor(AllLive(ms)) == if ms == [] || first == 0 then 0 else first - 1
  {
    if ms != [] {
      var rest := ms[1..];
      ContiguousFloor(rest, first + 1);
      AllLiveAt(rest);
      assert AllLive(ms)[0] == Live(ms[0]) && AllLive(ms)[1..] == AllLive(rest);
      forall e | e in AllLive(rest) ensures e.Sequence() > first {
        var i :| 0 <= i < |rest| && AllLive(rest)[i] == e;
        assert rest[i] == ms[i + 1];
      }
    }
  }

  /** For a contiguous feed that is still buffered when the order book arrives, the merged messages
      are consecutive from that book exactly when the feed began no later than one above it. */
  lemma ContiguousBufferIff(ms: seq<FeedMessage>, first: nat, n: Sequence)
    requires Schedule.Contiguous(ms, first)
    ensures GapFree(Newer(AllLive(ms), n), n) <==> ms == [] || first <= n + 1
  {
    ContiguousFloor(ms, first);
    GapFreeIff(AllLive(ms), n);
  }

  // The message that reveals a gap.

  lemma {:induction false} NewerAll(es: seq<Entry>, n: Sequence)
    requires forall e :: e in es ==> e.Sequence() > n
    ensures Newer(es, n) == es
  {
    if es != [] {
      assert es[0] in es && es == [es[0]] + es[1..];
      NewerAll(es[1..], n);
    }
  }

  /** Contiguous messages above the bound are all merged, and the last one is the last of all. */
  lemma MergesTail(left: seq<Entry>, ms: seq<FeedMessage>, first: nat, n: Sequence)
    requires ms != [] && Schedule.Contiguous(ms, first) && n < first
    ensures Newer(left + AllLive(ms), n) == Newer(left, n) + AllLive(ms)
    ensures LastOf(Newer(left, n) + AllLive(ms), n) == first + |ms| - 1
    ensures MessagesIn(AllLive(ms)) == ms
  {
    AllLiveAt(ms);
    forall e | e in AllLive(ms) ensures e.Sequence() > n {
      var i :| 0 <= i < |ms| && AllLive(ms)[i] == e;
      assert ms[i].sequence == first + i;
    }
    NewerAll(AllLive(ms), n);
    NewerConcat(left, AllLive(ms), n);
    Schedule.NewerIsAbove(ms, n);
  }

  /** Consecutive entries from n on hold every number up to the last one. */
  lemma GapFreeHolds(es: seq<Entry>, n: Sequence, g: Sequence)
    requires GapFree(es, n) && n < g <= LastOf(es, n)
    ensures exists m :: m in MessagesIn(es) && m.sequence == g
  {
    GapFreeLast(es, n);
    var i := g - n - 1;
    assert es[i].Live? && es[i].Sequence() == g;
    assert es == es[..i] + ([es[i]] + es[i + 1..]);
    MessagesConcat(es[..i], [es[i]] + es[i + 1..]);
    MessagesConcat([es[i]], es[i + 1..]);
    assert [es[i]][1..] == [] && MessagesIn([es[i]]) == [es[i].message];
    assert es[i].message in MessagesIn(es);
  }

  /** What a product holds was received. */
  lemma HeldWasReceived(steps: seq<Step>)
    ensures forall m :: m in MessagesIn(Log(Run(Initial, steps))) ==> m in Received(steps)
  {
    RunKeepsOrder(Initial, steps);
    assert MessagesIn(Log(Initial)) + Received(steps) == Received(steps);
    EmbedsMembers(MessagesIn(Log(Run(Initial, steps))), Received(steps));
  }

  /** Steps in which a gap is found at g, mid is received, and then an order book arrives. */
  function GapSteps(g: FeedMessage, mid: seq<Step>, n: Sequence, content: Option<Book>): seq<Step> {
    [Receive(g)] + mid + [FetchComplete(Reply(Some(n), content))]
  }

  /** The state in which such a run ends. */
  lemma GapStepsEnd(s: State, g: FeedMessage, mid: seq<Step>, n: Sequence, content: Option<Book>)
    requires Inv(s) && !s.requesting && g.sequence > Succ(s.last) && n != 0
    requires FirstReply(mid) == None
    ensures var t := Run(s, GapSteps(g, mid, n, content));
      var merged := Newer(s.queue + AllLive(Received(mid)), n);
      && !t.requesting && t.fetch == Installed
      && t.queue == [Snapshot(n, content, merged)] && t.last == LastOf(merged, n)
      && t.delivered + t.batch == s.delivered + s.batch
  {
    var reply := FetchComplete(Reply(Some(n), content));
    var u := Next(s, Receive(g));
    OnlyBuffers(u, mid);
    RunConcat(s, [Receive(g)] + mid, [reply]);
    RunConcat(s, [Receive(g)], mid);
    assert [Receive(g)][1..] == [] && [reply][1..] == [];
  }

  /** In every run that finds a gap at g, then buffers at least one message of the contiguous feed
      that follows, and then installs an order book older than g: the product is synchronised and has
      counted itself up to date, no gap is left to be found, and the message g is nowhere, so what is
      merged has a hole. */
  lemma GapMessageIsLost(before: seq<Step>, g: FeedMessage, mid: seq<Step>, n: Sequence, content: Option<Book>)
    requires !Run(Initial, before).requesting && g.sequence > Succ(Run(Initial, before).last)
    requires forall m :: m in Received(before) ==> m.sequence != g.sequence
    requires FirstReply(mid) == None && Received(mid) != [] && Schedule.Contiguous(Received(mid), g.sequence + 1)
    requires 0 < n < g.sequence
    ensures var t := Run(Initial, before + GapSteps(g, mid, n, content));
      && !t.requesting && t.last == g.sequence + |Received(mid)|
      && |t.queue| == 1 && t.queue[0].Snapshot? && t.queue[0].number == n && t.queue[0].content == content
      && !GapFree(t.queue[0].toMerge, n)
      && forall m :: m in MessagesIn(Log(t)) ==> m.sequence != g.sequence
  {
    var s, ms := Run(Initial, before), Received(mid);
    var t := Run(Initial, before + GapSteps(g, mid, n, content));
    EveryReachableState(before);
    RunConcat(Initial, before, GapSteps(g, mid, n, content));
    GapStepsEnd(s, g, mid, n, content);
    MergesTail(s.queue, ms, g.sequence + 1, n);
    var front, merged := s.delivered + s.batch, Newer(s.queue, n) + AllLive(ms);
    HeldWasReceived(before);
    forall m | m in MessagesIn(Log(t)) ensures m.sequence != g.sequence {
      HeldAfterInstall(front, s.queue, ms, n, content, m);
      assert Log(t) == front + [Snapshot(n, content, merged)] && Log(s) == front + s.queue;
      if m in ms {
        var i :| 0 <= i < |ms| && ms[i] == m;
      }
    }
    if GapFree(merged, n) {
      GapFreeHolds(merged, n, g.sequence);
      var m :| m in MessagesIn(merged) && m.sequence == g.sequence;
      HeldInQueue(t.delivered + t.batch, t.queue[0], m);
    }
  }

  lemma HeldInQueue(front: seq<Entry>, e: Entry, m: FeedMessage)
    requires e.Snapshot?
    ensures m in MessagesIn(front + [e]) <==> m in MessagesIn(front) || m in MessagesIn(e.toMerge)
  {
    MessagesConcat(front, [e]);
    assert [e][1..] == [] && MessagesIn([e]) == MessagesIn(e.toMerge);
  }

  /** A message held after an install was held before it. */
  lemma HeldAfterInstall(front: seq<Entry>, left: seq<Entry>, ms: seq<FeedMessage>, n: Sequence, content: Option<Book>, m: FeedMessage)
    requires MessagesIn(AllLive(ms)) == ms && m in MessagesIn(front + [Snapshot(n, content, Newer(left, n) + AllLive(ms))])
    ensures m in MessagesIn(front + left) || m in ms
  {
    HeldInQueue(front, Snapshot(n, content, Newer(left, n) + AllLive(ms)), m);
    MessagesConcat(Newer(left, n), AllLive(ms));
    NewerEmbeds(left, n);
    EmbedsMembers(MessagesIn(Newer(left, n)), MessagesIn(left));
    MessagesConcat(front, left);
  }

  // A concrete case.

  /** A message of a kind that changes no book, and one that opens an order. */
  function Quiet(n: Sequence): FeedMessage { FeedMessage("received", n, "", "", "", 0.0, 0.0, 0.0, "buy") }
  function Opening(n: Sequence, id: string): FeedMessage { FeedMessage("open", n, id, "", "", 1.0, 0.0, 1.0, "buy") }

  lemma QuietAndOpening(n: Sequence, id: string)
    ensures Decode(Quiet(n)) == None && Decode(Opening(n, id)) == Some(Open(id, 1.0, 1.0, Buy))
  {
    assert |Quiet(n).kind| == 8;
    assert Opening(n, id).side[0] != "sell"[0];
  }

  /** One order is opened, by the message that will reveal the gap. */
  const Lossy := History(map[], [Quiet(1), Quiet(2), Opening(3, "a"), Quiet(4)])

  const LossySteps := [
    FetchComplete(Reply(Some(1), Some(EmptyBook))), Receive(Opening(3, "a")), Receive(Quiet(4)),
    FetchComplete(Reply(Some(2), Some(EmptyBook))), Drain, DeliverNext]

  lemma LossyBooks()
    ensures Lossy.Valid()
    ensures Lossy.At(1) == Lossy.At(2) == map[] && Lossy.At(4) == map[Cell(Buy, "a") := Quote(1.0, 1.0)]
  {
    QuietAndOpening(1, "a");
    QuietAndOpening(2, "a");
    QuietAndOpening(3, "a");
    QuietAndOpening(4, "a");
    var x := Lossy;
    assert x.At(0) == map[];
    assert x.At(1) == EffectM(x.At(0), Quiet(1)) == map[];
    assert x.At(2) == EffectM(x.At(1), Quiet(2)) == map[];
    assert x.At(3) == EffectM(x.At(2), Opening(3, "a")) == map[Cell(Buy, "a") := Quote(1.0, 1.0)];
    assert x.At(4) == EffectM(x.At(3), Quiet(4));
    assert x.Numbered(1) && x.Numbered(2) && x.Numbered(3) && x.Numbered(4);
  }

  lemma LossyRun()
    ensures Run(Initial, LossySteps) == State([], 4, false, Installed, [], [Snapshot(2, Some(EmptyBook), [Live(Quiet(4))])])
  {
    var steps, m := LossySteps, Quiet(4);
    var first, last := Snapshot(1, Some(EmptyBook), []), Snapshot(2, Some(EmptyBook), [Live(m)]);
    assert Newer([Live(m)][1..], 2) == [] && Newer([Live(m)], 2) == [Live(m)];
    assert [first, Live(m)][1..] == [Live(m)] && Newer([first, Live(m)], 2) == [Live(m)];
    assert steps[4..][1..] == steps[5..] && steps[5..][1..] == [];
    assert Run(State([], 4, false, Installed, [last], []), steps[5..]) == State([], 4, false, Installed, [], [last]);
    assert Run(State([last], 4, false, Installed, [], []), steps[4..]) == State([], 4, false, Installed, [], [last]);
    assert steps[2..][1..] == steps[3..] && steps[3..][1..] == steps[4..];
    assert Run(State([first, Live(m)], 0, true, Running, [], []), steps[3..]) == State([], 4, false, Installed, [], [last]);
    assert Run(State([first], 0, true, Running, [], []), steps[2..]) == State([], 4, false, Installed, [], [last]);
    assert steps[1..][1..] == steps[2..];
    assert Run(State([first], 1, false, Installed, [], []), steps[1..]) == State([], 4, false, Installed, [], [last]);
  }

  /** So the local book can differ from the exchange for good. Here every message is authentic, both
      order books are true, and everything has been handed over up to the exchange's last number, but
      the book lacks the order that the lost message opened. */
  lemma LostMessageLosesOrder(productId: string)
    ensures Lossy.Valid() && Lossy.TrueBook(1, Some(EmptyBook)) && Lossy.TrueBook(2, Some(EmptyBook))
    ensures forall i :: 0 <= i < |LossySteps| && LossySteps[i].Receive? ==> Lossy.Authentic(LossySteps[i].message)
    ensures var t := Run(Initial, LossySteps);
      && t.last == |Lossy.events| && t.queue == t.batch == []
      && AsMap(ApplyAll(EmptyBook, TranslateAll(productId, t.delivered))) == map[] != Lossy.At(t.last)
  {
    LossyBooks();
    LossyRun();
    UnknownKindsDoNothing(productId, Quiet(4));
    assert Cell(Buy, "a") in Lossy.At(4);
  }

  lemma UnknownKindsDoNothing(productId: string, m: FeedMessage)
    requires |m.kind| == 8
    ensures ApplyAll(EmptyBook, TranslateAll(productId, [Snapshot(2, Some(EmptyBook), [Live(m)])])) == EmptyBook
  {
    var e := Snapshot(2, Some(EmptyBook), [Live(m)]);
    TranslationKeepsMeaning(EmptyBook, productId, [e]);
    assert [e][1..] == [] && [Live(m)][1..] == [] && Effect(EmptyBook, m) == EmptyBook;
    assert PlayAll(EmptyBook, [Live(m)]) == EmptyBook;
  }
}
