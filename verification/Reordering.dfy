/** Which changes may be applied in any order: the market's pending changes are kept in a hash
    multimap, which does not promise the order of the changes of one product. */
module Reordering {
  import opened OrderBooks
  import opened ProductChanges
  import opened MapBooks

  ghost predicate Commutes(m: MapBook, d: Event, e: Event) {
    ApplyEventM(ApplyEventM(m, d), e) == ApplyEventM(ApplyEventM(m, e), d)
  }

  /** A match against an event that is no match: the match is empty, or the cells are apart, except
      that the taker of a match may be removed in either order. */
  predicate MatchCompatible(d: Event, e: Event)
    requires d.Match? && !e.Match?
  {
    d.size == 0.0 || (Target(e) != Maker(d) && (Target(e) == Taker(d) ==> e.Done?))
  }

  /** Two events with the same target that leave it with the same content in both orders. */
  predicate SameTargetCompatible(d: Event, e: Event)
    requires !d.Match? && !e.Match?
  {
    match (d, e)
    case (Open(_, p, s, _), Open(_, q, t, _)) => p == q && s == t
    case (Open(_, _, s, _), Change(_, _, t, _)) => s == t
    case (Change(_, _, s, _), Open(_, _, t, _)) => s == t
    case (Change(_, _, s, _), Change(_, _, t, _)) => s == t
    case _ => !d.Open? && !e.Open?
  }

  predicate Compatible(d: Event, e: Event) {
    if d.Match? && e.Match? then true
    else if d.Match? then MatchCompatible(d, e)
    else if e.Match? then MatchCompatible(e, d)
    else Target(d) != Target(e) || SameTargetCompatible(d, e)
  }

  /** What a match takes from a cell; the cells themselves stay. */
  function TakenBy(m: MapBook, e: Event, c: Cell): real
    requires e.Match?
  {
    if Maker(e) in m && (c == Maker(e) || c == Taker(e)) then e.size else 0.0
  }

  lemma MatchAt(m: MapBook, e: Event)
    requires e.Match?
    ensures ApplyEventM(m, e).Keys == m.Keys
    ensures forall c :: c in m ==> ApplyEventM(m, e)[c] == m[c].(size := m[c].size - TakenBy(m, e, c))
  {
    assert Maker(e) != Taker(e);
  }

  lemma MatchesCommute(m: MapBook, d: Event, e: Event)
    requires d.Match? && e.Match?
    ensures Commutes(m, d, e)
  {
    var md, me := ApplyEventM(m, d), ApplyEventM(m, e);
    MatchAt(m, d);
    MatchAt(m, e);
    MatchAt(md, e);
    MatchAt(me, d);
    assert forall c :: c in m ==> ApplyEventM(md, e)[c] == ApplyEventM(me, d)[c];
  }

  lemma EmptyMatch(m: MapBook, d: Event)
    requires d.Match? && d.size == 0.0
    ensures ApplyEventM(m, d) == m
  {
    MatchAt(m, d);
    assert forall c :: c in m ==> ApplyEventM(m, d)[c] == m[c];
  }

  /** A match and an event on a cell that the match leaves alone. */
  lemma MatchCommutesApart(m: MapBook, d: Event, e: Event)
    requires d.Match? && !e.Match? && Target(e) != Maker(d) && Target(e) != Taker(d)
    ensures Commutes(m, d, e)
  {
    var md, me := ApplyEventM(m, d), ApplyEventM(m, e);
    MatchAt(m, d);
    MatchAt(me, d);
    assert ApplyEventM(md, e).Keys == ApplyEventM(me, d).Keys;
    assert forall c :: c in ApplyEventM(me, d) ==> ApplyEventM(md, e)[c] == ApplyEventM(me, d)[c];
  }

  lemma MatchCommutesWithDone(m: MapBook, d: Event, e: Event)
    requires d.Match? && e.Done? && Target(e) != Maker(d)
    ensures Commutes(m, d, e)
  {
    var md, me := ApplyEventM(m, d), ApplyEventM(m, e);
    MatchAt(m, d);
    MatchAt(me, d);
    assert ApplyEventM(md, e).Keys == ApplyEventM(me, d).Keys;
    assert forall c :: c in ApplyEventM(me, d) ==> ApplyEventM(md, e)[c] == ApplyEventM(me, d)[c];
  }

  lemma MatchCommutes(m: MapBook, d: Event, e: Event)
    requires d.Match? && !e.Match? && MatchCompatible(d, e)
    ensures Commutes(m, d, e)
  {
    if d.size == 0.0 {
      EmptyMatch(m, d);
      EmptyMatch(ApplyEventM(m, e), d);
    } else if e.Done? {
      MatchCommutesWithDone(m, d, e);
    } else {
      MatchCommutesApart(m, d, e);
    }
  }

  lemma CompatibleCommute(m: MapBook, d: Event, e: Event)
    requires Compatible(d, e)
    ensures Commutes(m, d, e)
  {
    if d.Match? && e.Match? {
      MatchesCommute(m, d, e);
    } else if d.Match? {
      MatchCommutes(m, d, e);
    } else if e.Match? {
      MatchCommutes(m, e, d);
    } else {
      var de, ed := ApplyEventM(ApplyEventM(m, d), e), ApplyEventM(ApplyEventM(m, e), d);
      assert forall c :: c in de <==> c in ed;
      assert forall c :: c in de ==> de[c] == ed[c];
    }
  }

  /** A book on which two incompatible events give different results in the two orders. */
  function Witness(d: Event, e: Event): MapBook {
    var zero := Quote(0.0, 0.0);
    if d.Match? then map[Maker(d) := zero, Taker(d) := zero]
    else if e.Match? then map[Maker(e) := zero, Taker(e) := zero]
    else if d.Change? && e.Change? then map[Target(d) := zero]
    else map[]
  }

  lemma IncompatibleDiffer(d: Event, e: Event)
    requires !Compatible(d, e)
    ensures !Commutes(Witness(d, e), d, e)
  {
    var m := Witness(d, e);
    var de, ed := ApplyEventM(ApplyEventM(m, d), e), ApplyEventM(ApplyEventM(m, e), d);
    if d.Match? {
      MatchDiffers(d, e);
    } else if e.Match? {
      MatchDiffers(e, d);
    } else {
      var c := Target(d);
      assert c !in de || c !in ed || de[c] != ed[c];
    }
  }

  lemma MatchDiffers(d: Event, e: Event)
    requires d.Match? && !e.Match? && !MatchCompatible(d, e)
    ensures !Commutes(Witness(d, e), d, e)
  {
    var m := Witness(d, e);
    var de, ed := ApplyEventM(ApplyEventM(m, d), e), ApplyEventM(ApplyEventM(m, e), d);
    if e.Done? {
      assert de[Taker(d)].size == -d.size && ed[Taker(d)].size == 0.0;
    } else {
      var c := Target(e);
      assert de[c].size != ed[c].size;
    }
  }

  /** Two events may be swapped on every book exactly when they are compatible. */
  lemma EventsCommuteIff(d: Event, e: Event)
    ensures (forall m :: Commutes(m, d, e)) <==> Compatible(d, e)
  {
    if Compatible(d, e) {
      forall m ensures Commutes(m, d, e) { CompatibleCommute(m, d, e); }
    } else {
      IncompatibleDiffer(d, e);
    }
  }

  // Changes, full order books included.

  /** The book that a full order book and what is merged into it leave, whatever was there before. */
  function Left(pc: ProductChange): MapBook
    requires pc.Reset?
  {
    ApplyM(map[], pc)
  }

  /** The event finds nothing to do on this book. */
  predicate Idle(m: MapBook, e: Event) {
    match e
    case Open(_, price, size, _) => Target(e) in m && m[Target(e)] == Quote(price, size)
    case Done(_, _) => Target(e) !in m
    case Change(_, _, newSize, _) => Target(e) in m ==> m[Target(e)].size == newSize
    case Match(_, _, _, size, _) => Maker(e) in m ==> size == 0.0
  }

  lemma IdleIff(m: MapBook, e: Event)
    ensures ApplyEventM(m, e) == m <==> Idle(m, e)
  {
    if e.Match? {
      MatchAt(m, e);
      assert Maker(e) in m ==> ApplyEventM(m, e)[Maker(e)].size == m[Maker(e)].size - e.size;
    }
  }

  /** Two full order books that leave the same book, an event that is idle on what a full order book
      leaves, or two compatible events. */
  predicate CompatibleChanges(d: ProductChange, e: ProductChange) {
    match (d, e)
    case (Increment(_, _, ev), Increment(_, _, ev')) => Compatible(ev, ev')
    case (Reset(_, _, _, _, _), Increment(_, _, ev)) => Idle(Left(d), ev)
    case (Increment(_, _, ev), Reset(_, _, _, _, _)) => Idle(Left(e), ev)
    case _ => Left(d) == Left(e)
  }

  ghost predicate ChangesCommute(m: MapBook, d: ProductChange, e: ProductChange) {
    ApplyM(ApplyM(m, d), e) == ApplyM(ApplyM(m, e), d)
  }

  /** A full order book decides on its own whether it may trade places with another change. */
  lemma ResetCommutesIff(m: MapBook, d: ProductChange, e: ProductChange)
    requires d.Reset? || e.Reset?
    ensures ChangesCommute(m, d, e) <==> CompatibleChanges(d, e)
  {
    if d.Reset? && e.Increment? {
      IdleIff(Left(d), e.event);
    } else if d.Increment? {
      IdleIff(Left(e), d.event);
    }
  }

  /** Two changes of any kind may be swapped on every book exactly when they are compatible. */
  lemma CommuteIff(d: ProductChange, e: ProductChange)
    ensures (forall m :: ChangesCommute(m, d, e)) <==> CompatibleChanges(d, e)
  {
    if d.Increment? && e.Increment? {
      EventsCommuteIff(d.event, e.event);
      assert forall m :: Commutes(m, d.event, e.event) <==> ChangesCommute(m, d, e);
    } else {
      forall m ensures ChangesCommute(m, d, e) <==> CompatibleChanges(d, e) { ResetCommutesIff(m, d, e); }
      assert ChangesCommute(map[], d, e) <==> CompatibleChanges(d, e);
    }
  }

  predicate Opens(pc: ProductChange) { pc.Increment? && pc.event.Open? }

  lemma SwapKeepsFresh(m: MapBook, d: Event, e: Event)
    requires Compatible(d, e) && Fresh(m, d) && Fresh(ApplyEventM(m, d), e)
    ensures Fresh(m, e) && Fresh(ApplyEventM(m, e), d)
  {}

  /** Swapping compatible changes also keeps every opened id new, except exactly when an order is
      opened that the full order book after it lists as well: in the other order it is listed twice. */
  lemma SwapAdmissibleIff(m: MapBook, d: ProductChange, e: ProductChange)
    requires CompatibleChanges(d, e) && Admissible(m, d) && Admissible(ApplyM(m, d), e)
    ensures Admissible(m, e) && Admissible(ApplyM(m, e), d) <==> !(Opens(d) && e.Reset?)
  {
    if d.Increment? && e.Increment? {
      SwapKeepsFresh(m, d.event, e.event);
    }
  }

  // Lists of changes.

  /** The second change may also come first. */
  predicate Swappable(d: ProductChange, e: ProductChange) {
    CompatibleChanges(d, e) && !(Opens(d) && e.Reset?)
  }

  /** The changes can be applied in any order: each may come before each earlier one. */
  ghost predicate Orderless(pcs: seq<ProductChange>) {
    forall i, j :: 0 <= i < j < |pcs| ==> Swappable(pcs[i], pcs[j])
  }

  lemma {:induction false} ApplyAllMConcat(m: MapBook, xs: seq<ProductChange>, ys: seq<ProductChange>)
    ensures ApplyAllM(m, xs + ys) == ApplyAllM(ApplyAllM(m, xs), ys)
    ensures AdmissibleAll(m, xs + ys) <==> AdmissibleAll(m, xs) && AdmissibleAll(ApplyAllM(m, xs), ys)
    decreases xs
  {
    if xs == [] {
      assert xs + ys == ys;
    } else {
      assert (xs + ys)[1..] == xs[1..] + ys;
      ApplyAllMConcat(ApplyM(m, xs[0]), xs[1..], ys);
    }
  }

  function MoveToFront(pcs: seq<ProductChange>, i: nat): seq<ProductChange>
    requires i < |pcs|
  {
    [pcs[i]] + (pcs[..i] + pcs[i + 1..])
  }

  lemma FirstTwo(m: MapBook, d: ProductChange, e: ProductChange, rest: seq<ProductChange>)
    ensures ApplyAllM(m, [d, e] + rest) == ApplyAllM(ApplyM(ApplyM(m, d), e), rest)
    ensures AdmissibleAll(m, [d, e] + rest)
       <==> Admissible(m, d) && Admissible(ApplyM(m, d), e) && AdmissibleAll(ApplyM(ApplyM(m, d), e), rest)
  {
    assert ([d, e] + rest)[0] == d && ([d, e] + rest)[1..] == [e] + rest;
    assert ([e] + rest)[0] == e && ([e] + rest)[1..] == rest;
  }

  lemma SwapFirstTwo(m: MapBook, d: ProductChange, e: ProductChange, rest: seq<ProductChange>)
    requires Swappable(d, e)
    ensures ApplyAllM(m, [e, d] + rest) == ApplyAllM(m, [d, e] + rest)
    ensures AdmissibleAll(m, [d, e] + rest) ==> AdmissibleAll(m, [e, d] + rest)
  {
    FirstTwo(m, d, e, rest);
    FirstTwo(m, e, d, rest);
    CommuteIff(d, e);
    assert ChangesCommute(m, d, e);
    if AdmissibleAll(m, [d, e] + rest) {
      SwapAdmissibleIff(m, d, e);
    }
  }

  /** Taking one change out leaves a list orderless. */
  lemma OrderlessWithout(pcs: seq<ProductChange>, i: nat)
    requires i < |pcs| && Orderless(pcs)
    ensures Orderless(pcs[..i] + pcs[i + 1..])
  {
    var rest := pcs[..i] + pcs[i + 1..];
    assert forall k :: 0 <= k < |rest| ==> rest[k] == pcs[if k < i then k else k + 1];
  }

  /** Moving an element to the front is moving it to second place and then swapping the first two. */
  lemma MoveInTwoSteps(pcs: seq<ProductChange>, i: nat) returns (rest: seq<ProductChange>)
    requires 0 < i < |pcs|
    ensures [pcs[0]] + pcs[1..] == pcs
    ensures [pcs[0]] + MoveToFront(pcs[1..], i - 1) == [pcs[0], pcs[i]] + rest
    ensures MoveToFront(pcs, i) == [pcs[i], pcs[0]] + rest
  {
    rest := pcs[1..i] + pcs[i + 1..];
    assert pcs[1..][..i - 1] == pcs[1..i] && pcs[1..][i..] == pcs[i + 1..];
    assert pcs[..i] == [pcs[0]] + pcs[1..i];
  }

  /** The change at i may come before all that stand before it. */
  ghost predicate MayLead(pcs: seq<ProductChange>, i: nat)
    requires i < |pcs|
  {
    forall j :: 0 <= j < i ==> Swappable(pcs[j], pcs[i])
  }

  lemma MayLeadParts(pcs: seq<ProductChange>, i: nat)
    requires 0 < i < |pcs| && MayLead(pcs, i)
    ensures Swappable(pcs[0], pcs[i]) && MayLead(pcs[1..], i - 1)
  {
    assert pcs[1..][i - 1] == pcs[i] && forall j :: 0 <= j < i - 1 ==> pcs[1..][j] == pcs[j + 1];
  }

  /** Two changes at the front, and what is known of the list without the first. */
  lemma MoveOneMore(m: MapBook, d: ProductChange, e: ProductChange, rest: seq<ProductChange>, tail: seq<ProductChange>)
    requires Swappable(d, e)
    requires ApplyAllM(ApplyM(m, d), [e] + rest) == ApplyAllM(ApplyM(m, d), tail)
    requires AdmissibleAll(ApplyM(m, d), tail) ==> AdmissibleAll(ApplyM(m, d), [e] + rest)
    ensures ApplyAllM(m, [e, d] + rest) == ApplyAllM(m, [d] + tail)
    ensures AdmissibleAll(m, [d] + tail) ==> AdmissibleAll(m, [e, d] + rest)
  {
    ConsBoth(m, d, tail, [e] + rest);
    assert [d] + ([e] + rest) == [d, e] + rest;
    SwapFirstTwo(m, d, e, rest);
  }

  lemma {:induction false} MoveToFrontIsHarmless(m: MapBook, pcs: seq<ProductChange>, i: nat)
    requires i < |pcs| && MayLead(pcs, i)
    ensures ApplyAllM(m, MoveToFront(pcs, i)) == ApplyAllM(m, pcs)
    ensures AdmissibleAll(m, pcs) ==> AdmissibleAll(m, MoveToFront(pcs, i))
    decreases i
  {
    if i == 0 {
      assert MoveToFront(pcs, 0) == pcs;
    } else {
      var rest := MoveInTwoSteps(pcs, i);
      MayLeadParts(pcs, i);
      MoveToFrontIsHarmless(ApplyM(m, pcs[0]), pcs[1..], i - 1);
      assert ([pcs[0]] + MoveToFront(pcs[1..], i - 1))[1..] == ([pcs[0], pcs[i]] + rest)[1..];
      assert MoveToFront(pcs[1..], i - 1) == [pcs[i]] + rest;
      MoveOneMore(m, pcs[0], pcs[i], rest, pcs[1..]);
    }
  }

  /** What holds of two lists after a change holds of the lists that start with it. */
  lemma ConsBoth(m: MapBook, d: ProductChange, xs: seq<ProductChange>, ys: seq<ProductChange>)
    requires ApplyAllM(ApplyM(m, d), ys) == ApplyAllM(ApplyM(m, d), xs)
    requires AdmissibleAll(ApplyM(m, d), xs) ==> AdmissibleAll(ApplyM(m, d), ys)
    ensures ApplyAllM(m, [d] + ys) == ApplyAllM(m, [d] + xs)
    ensures AdmissibleAll(m, [d] + xs) ==> AdmissibleAll(m, [d] + ys)
  {
    assert ([d] + xs)[1..] == xs && ([d] + ys)[1..] == ys;
  }

  lemma TakeOne(pcs: seq<ProductChange>, arranged: seq<ProductChange>) returns (i: nat)
    requires multiset(arranged) == multiset(pcs) && arranged != []
    ensures i < |pcs| && pcs[i] == arranged[0]
    ensures multiset(arranged[1..]) == multiset(pcs[..i] + pcs[i + 1..])
  {
    assert arranged[0] in multiset(pcs);
    i :| 0 <= i < |pcs| && pcs[i] == arranged[0];
    var a, x, b, rest := pcs[..i], [pcs[i]], pcs[i + 1..], arranged[1..];
    assert pcs == a + x + b;
    assert arranged == x + rest;
    assert multiset(arranged) == multiset(x) + multiset(rest);
    assert multiset(a + b) == multiset(a) + multiset(b);
    assert multiset(pcs) == multiset(a) + multiset(x) + multiset(b);
    assert multiset(rest) == multiset(arranged) - multiset(x);
    assert multiset(a + b) == multiset(pcs) - multiset(x);
  }

  /** The changes in another order, in which no change comes before one that it may not precede. */
  ghost predicate Reorders(arranged: seq<ProductChange>, pcs: seq<ProductChange>)
    decreases |arranged|
  {
    if arranged == [] then pcs == []
    else exists i :: 0 <= i < |pcs| && TakesFirst(arranged, pcs, i) && Reorders(arranged[1..], pcs[..i] + pcs[i + 1..])
  }

  /** The first change of the new order stood at i, and may come before all that stood before it. */
  ghost predicate TakesFirst(arranged: seq<ProductChange>, pcs: seq<ProductChange>, i: nat)
    requires arranged != [] && i < |pcs|
  {
    pcs[i] == arranged[0] && MayLead(pcs, i)
  }

  /** Such an order leaves the same book and stays admissible. */
  lemma {:induction false} ReorderingIsHarmless(m: MapBook, pcs: seq<ProductChange>, arranged: seq<ProductChange>)
    requires Reorders(arranged, pcs)
    ensures ApplyAllM(m, arranged) == ApplyAllM(m, pcs)
    ensures AdmissibleAll(m, pcs) ==> AdmissibleAll(m, arranged)
    decreases |arranged|
  {
    if arranged != [] {
      var i :| 0 <= i < |pcs| && TakesFirst(arranged, pcs, i) && Reorders(arranged[1..], pcs[..i] + pcs[i + 1..]);
      var rest := pcs[..i] + pcs[i + 1..];
      ReorderingIsHarmless(ApplyM(m, pcs[i]), rest, arranged[1..]);
      ConsBoth(m, pcs[i], rest, arranged[1..]);
      MoveToFrontIsHarmless(m, pcs, i);
      assert [pcs[i]] + arranged[1..] == arranged;
    }
  }

  /** Every permutation of an orderless batch is such an order. */
  lemma {:induction false} OrderlessReorders(pcs: seq<ProductChange>, arranged: seq<ProductChange>)
    requires multiset(arranged) == multiset(pcs) && Orderless(pcs)
    ensures Reorders(arranged, pcs)
    decreases |arranged|
  {
    if arranged == [] {
      assert |multiset(pcs)| == |multiset(arranged)|;
    } else {
      var i := TakeOne(pcs, arranged);
      OrderlessWithout(pcs, i);
      OrderlessReorders(pcs[..i] + pcs[i + 1..], arranged[1..]);
      assert TakesFirst(arranged, pcs, i);
    }
  }

  /** Any rearrangement of an orderless batch leaves the same book and stays admissible. */
  lemma RearrangingIsHarmless(m: MapBook, pcs: seq<ProductChange>, arranged: seq<ProductChange>)
    requires multiset(arranged) == multiset(pcs) && Orderless(pcs)
    ensures ApplyAllM(m, arranged) == ApplyAllM(m, pcs)
    ensures AdmissibleAll(m, pcs) ==> AdmissibleAll(m, arranged)
  {
    OrderlessReorders(pcs, arranged);
    ReorderingIsHarmless(m, pcs, arranged);
  }

  function Concat(batches: seq<seq<ProductChange>>): seq<ProductChange> {
    if batches == [] then [] else batches[0] + Concat(batches[1..])
  }

  ghost predicate Rearranges(arranged: seq<seq<ProductChange>>, batches: seq<seq<ProductChange>>) {
    |arranged| == |batches| && forall i :: 0 <= i < |batches| ==> multiset(arranged[i]) == multiset(batches[i])
  }

  ghost predicate ReordersAll(arranged: seq<seq<ProductChange>>, batches: seq<seq<ProductChange>>) {
    |arranged| == |batches| && forall i :: 0 <= i < |batches| ==> Reorders(arranged[i], batches[i])
  }

  /** Batch after batch, each in an order of its own. */
  lemma {:induction false} ReorderedBatches(m: MapBook, batches: seq<seq<ProductChange>>, arranged: seq<seq<ProductChange>>)
    requires ReordersAll(arranged, batches)
    ensures ApplyAllM(m, Concat(arranged)) == ApplyAllM(m, Concat(batches))
    ensures AdmissibleAll(m, Concat(batches)) ==> AdmissibleAll(m, Concat(arranged))
    decreases |batches|
  {
    if batches != [] {
      ReorderingIsHarmless(m, batches[0], arranged[0]);
      ReorderedBatches(ApplyAllM(m, batches[0]), batches[1..], arranged[1..]);
      ApplyAllMConcat(m, batches[0], Concat(batches[1..]));
      ApplyAllMConcat(m, arranged[0], Concat(arranged[1..]));
    }
  }
}
