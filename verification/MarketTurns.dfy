/** A turn of the handler in its two critical sections: it takes the pending changes under one mutex
    and applies them under another, and changes and subscriptions may come in between. */
module MarketTurns {
  import opened ProductChanges
  import opened Markets
  import opened MarketRuns

  type OutsideStep = step: MarketStep | !step.Turn? witness Subscribe("")

  datatype SplitStep =
    | Outside(step: OutsideStep)
    | Swap      // under the mutex of the pending changes
    | Apply     // under the mutex of the products

  /** The market, and the changes that a turn has taken and not applied yet. */
  datatype SplitState = SplitState(s: MarketState, current: Option<seq<ProductChange>>)

  datatype Option<+T> = None | Some(value: T)

  function SplitNext(x: SplitState, step: SplitStep): SplitState {
    match step
    case Outside(o) => x.(s := Next(x.s, o))
    case Swap => if x.current == None then SplitState(x.s.(pending := []), Some(x.s.pending)) else x
    case Apply =>
      if x.current == None then x
      else SplitState(x.s.(products := Drained(x.s.(pending := x.current.value)).products), None)
  }

  function SplitRun(x: SplitState, steps: seq<SplitStep>): SplitState
    decreases steps
  {
    if steps == [] then x else SplitRun(SplitNext(x, steps[0]), steps[1..])
  }

  /** The market once the turn that is under way, if any, is over. */
  function Settled(x: SplitState): MarketState {
    SplitNext(x, Apply).s
  }

  /** What comes from outside, in order. */
  function Outsides(steps: seq<SplitStep>): seq<MarketStep> {
    if steps == [] then [] else (if steps[0].Outside? then [steps[0].step] else []) + Outsides(steps[1..])
  }

  /** The atomic run: a turn happens when it is applied, and changes that came since it began, which
      are held, come behind it. */
  function Atomic(taking: bool, held: seq<MarketStep>, steps: seq<SplitStep>): seq<MarketStep>
    decreases steps
  {
    if steps == [] then (if taking then [Turn] + held else [])
    else
      match steps[0]
      case Outside(o) =>
        if taking && o.Enqueue? then Atomic(true, held + [o], steps[1..]) else [o] + Atomic(taking, held, steps[1..])
      case Swap => Atomic(true, held, steps[1..])
      case Apply => (if taking then [Turn] + held else []) + Atomic(false, [], steps[1..])
  }

  /** The multimap gains exactly the change that arrives. */
  ghost predicate Gains(s: MarketState, step: MarketStep) {
    step.Enqueue? ==> multiset(step.arranged) == multiset(s.pending) + multiset{step.pc}
  }

  ghost predicate SplitArriving(x: SplitState, steps: seq<SplitStep>)
    decreases steps
  {
    steps == [] || ((steps[0].Outside? ==> Gains(x.s, steps[0].step)) && SplitArriving(SplitNext(x, steps[0]), steps[1..]))
  }

  lemma {:induction false} RunConcat(s: MarketState, xs: seq<MarketStep>, ys: seq<MarketStep>)
    ensures Run(s, xs + ys) == Run(Run(s, xs), ys)
    ensures Arriving(s, xs + ys) <==> Arriving(s, xs) && Arriving(Run(s, xs), ys)
    decreases xs
  {
    if xs == [] {
      assert xs + ys == ys;
    } else {
      assert (xs + ys)[1..] == xs[1..] + ys;
      RunConcat(Next(s, xs[0]), xs[1..], ys);
    }
  }

  lemma RunOne(s: MarketState, step: MarketStep)
    ensures Run(s, [step]) == Next(s, step) && (Arriving(s, [step]) <==> Gains(s, step))
  {
    assert [step][1..] == [];
  }

  /** Only changes are held, and on their own they leave what is pending now. */
  ghost predicate Holds(held: seq<MarketStep>, pending: seq<ProductChange>) {
    && (forall step :: step in held ==> step.Enqueue?)
    && forall s: MarketState :: s.pending == [] ==> Run(s, held) == s.(pending := pending)
  }

  /** Each of them was gained when it came. */
  ghost predicate HeldGained(held: seq<MarketStep>) {
    forall s: MarketState :: s.pending == [] ==> Arriving(s, held)
  }

  lemma HoldOneMore(held: seq<MarketStep>, pending: seq<ProductChange>, step: MarketStep)
    requires Holds(held, pending) && step.Enqueue?
    ensures Holds(held + [step], step.arranged)
    ensures HeldGained(held) && multiset(step.arranged) == multiset(pending) + multiset{step.pc} ==> HeldGained(held + [step])
  {
    forall s: MarketState | s.pending == []
      ensures Run(s, held + [step]) == s.(pending := step.arranged)
      ensures HeldGained(held) && multiset(step.arranged) == multiset(pending) + multiset{step.pc} ==> Arriving(s, held + [step])
    {
      RunConcat(s, held, [step]);
      RunOne(s.(pending := pending), step);
    }
  }

  /** The atomic state that goes with a split one: a turn under way has not happened yet. */
  function Before(x: SplitState): MarketState {
    if x.current == None then x.s else x.s.(pending := x.current.value)
  }

  ghost predicate Inv(x: SplitState, held: seq<MarketStep>) {
    if x.current == None then held == [] else Holds(held, x.s.pending)
  }

  /** A turn and what is held behind it lead to the end of the turn that is under way. */
  lemma TurnSettles(x: SplitState, held: seq<MarketStep>)
    requires Inv(x, held) && x.current != None
    ensures Run(Before(x), [Turn] + held) == Settled(x) == SplitNext(x, Apply).s
    ensures HeldGained(held) ==> Arriving(Before(x), [Turn] + held)
  {
    RunConcat(Before(x), [Turn], held);
    RunOne(Before(x), Turn);
  }

  /** What a run does from a state that goes with a split one. */
  lemma {:induction false} SplitRefines(x: SplitState, held: seq<MarketStep>, steps: seq<SplitStep>)
    requires Inv(x, held)
    ensures Run(Before(x), Atomic(x.current != None, held, steps)) == Settled(SplitRun(x, steps))
    ensures HeldGained(held) && SplitArriving(x, steps) ==> Arriving(Before(x), Atomic(x.current != None, held, steps))
    decreases steps
  {
    if steps == [] {
      if x.current != None {
        TurnSettles(x, held);
      }
    } else {
      var step, rest, taking := steps[0], steps[1..], x.current != None;
      var y := SplitNext(x, step);
      match step {
        case Outside(o) =>
          if taking && o.Enqueue? {
            HoldOneMore(held, x.s.pending, o);
            SplitRefines(y, held + [o], rest);
          } else {
            SplitRefines(y, held, rest);
            RunConcat(Before(x), [o], Atomic(taking, held, rest));
            RunOne(Before(x), o);
          }
        case Swap =>
          SplitRefines(y, held, rest);
        case Apply =>
          SplitRefines(y, [], rest);
          if taking {
            TurnSettles(x, held);
            RunConcat(Before(x), [Turn] + held, Atomic(false, [], rest));
            assert HeldGained([]);
          } else {
            assert [] + Atomic(false, [], rest) == Atomic(false, [], rest);
          }
      }
    }
  }

  // The same things arrive, in the same order.

  /** The changes that arrive in a run, or the products that come and go. */
  function Kind(steps: seq<MarketStep>, arrivals: bool): seq<MarketStep> {
    if steps == [] then [] else KindOf(steps[0], arrivals) + Kind(steps[1..], arrivals)
  }

  function KindOf(step: MarketStep, arrivals: bool): seq<MarketStep> {
    if !step.Turn? && step.Enqueue? == arrivals then [step] else []
  }

  lemma {:induction false} KindConcat(xs: seq<MarketStep>, ys: seq<MarketStep>, arrivals: bool)
    ensures Kind(xs + ys, arrivals) == Kind(xs, arrivals) + Kind(ys, arrivals)
    decreases xs
  {
    if xs == [] {
      assert xs + ys == ys;
    } else {
      assert (xs + ys)[1..] == xs[1..] + ys;
      KindConcat(xs[1..], ys, arrivals);
    }
  }

  lemma KindCons(step: MarketStep, rest: seq<MarketStep>, arrivals: bool)
    ensures Kind([step] + rest, arrivals) == KindOf(step, arrivals) + Kind(rest, arrivals)
  {
    assert ([step] + rest)[1..] == rest;
  }

  lemma {:induction false} KindHeld(held: seq<MarketStep>, arrivals: bool)
    requires forall step :: step in held ==> step.Enqueue?
    ensures Kind(held, arrivals) == if arrivals then held else []
  {
    if held != [] {
      assert held[0] in held && held == [held[0]] + held[1..];
      KindHeld(held[1..], arrivals);
    }
  }

  lemma KindTurn(held: seq<MarketStep>, rest: seq<MarketStep>, arrivals: bool)
    requires forall step :: step in held ==> step.Enqueue?
    ensures Kind([Turn] + held + rest, arrivals) == (if arrivals then held else []) + Kind(rest, arrivals)
  {
    assert [Turn] + held + rest == [Turn] + (held + rest);
    KindCons(Turn, held + rest, arrivals);
    KindConcat(held, rest, arrivals);
    KindHeld(held, arrivals);
    assert [] + Kind(held + rest, arrivals) == Kind(held + rest, arrivals);
  }

  lemma OutsidesCons(steps: seq<SplitStep>, arrivals: bool)
    requires steps != []
    ensures Kind(Outsides(steps), arrivals)
         == (if steps[0].Outside? then KindOf(steps[0].step, arrivals) else []) + Kind(Outsides(steps[1..]), arrivals)
  {
    if steps[0].Outside? {
      KindCons(steps[0].step, Outsides(steps[1..]), arrivals);
    } else {
      assert [] + Outsides(steps[1..]) == Outsides(steps[1..]);
    }
  }

  lemma OneOfTwoEmpty<T>(p: seq<T>, a: seq<T>, k: seq<T>)
    requires p == [] || a == []
    ensures a + (p + k) == p + (a + k)
  {
    assert p == [] ==> p + k == k && p + (a + k) == a + k;
    assert a == [] ==> a + k == k && a + (p + k) == p + k;
  }

  /** What a step from outside adds to what is held or emitted. */
  lemma SameOutside(taking: bool, held: seq<MarketStep>, o: OutsideStep, rest: seq<SplitStep>, arrivals: bool, k: seq<MarketStep>)
    requires (forall step :: step in held ==> step.Enqueue?) && (!taking ==> held == [])
    requires Kind(if taking && o.Enqueue? then Atomic(true, held + [o], rest) else Atomic(taking, held, rest), arrivals)
          == (if arrivals then (if taking && o.Enqueue? then held + [o] else held) else []) + k
    ensures Kind(Atomic(taking, held, [Outside(o)] + rest), arrivals) == (if arrivals then held else []) + (KindOf(o, arrivals) + k)
  {
    var p, a := if arrivals then held else [], KindOf(o, arrivals);
    assert ([Outside(o)] + rest)[1..] == rest && ([Outside(o)] + rest)[0] == Outside(o);
    if taking && o.Enqueue? {
      assert (held + [o]) + k == held + ([o] + k);
      assert [] + k == k && [] + ([] + k) == k;
    } else {
      KindCons(o, Atomic(taking, held, rest), arrivals);
      OneOfTwoEmpty(p, a, k);
    }
  }

  lemma SameApply(taking: bool, held: seq<MarketStep>, rest: seq<SplitStep>, arrivals: bool)
    requires (forall step :: step in held ==> step.Enqueue?) && (!taking ==> held == [])
    ensures Kind(Atomic(taking, held, [Apply] + rest), arrivals) == (if arrivals then held else []) + Kind(Atomic(false, [], rest), arrivals)
  {
    assert ([Apply] + rest)[1..] == rest;
    KindTurn(held, Atomic(false, [], rest), arrivals);
    assert [] + Atomic(false, [], rest) == Atomic(false, [], rest);
  }

  lemma {:induction false} SameOutsides(taking: bool, held: seq<MarketStep>, steps: seq<SplitStep>, arrivals: bool)
    requires (forall step :: step in held ==> step.Enqueue?) && (!taking ==> held == [])
    ensures Kind(Atomic(taking, held, steps), arrivals) == (if arrivals then held else []) + Kind(Outsides(steps), arrivals)
    decreases steps
  {
    if steps == [] {
      KindTurn(held, [], arrivals);
      assert [Turn] + held + [] == [Turn] + held;
    } else {
      var rest := steps[1..];
      assert steps == [steps[0]] + rest;
      OutsidesCons(steps, arrivals);
      match steps[0] {
        case Outside(o) =>
          SameOutsides(taking, if taking && o.Enqueue? then held + [o] else held, rest, arrivals);
          SameOutside(taking, held, o, rest, arrivals, Kind(Outsides(rest), arrivals));
        case Swap =>
          SameOutsides(true, held, rest, arrivals);
        case Apply =>
          SameOutsides(false, [], rest, arrivals);
          SameApply(taking, held, rest, arrivals);
      }
    }
  }

  /** Every run with turns in two parts, whatever comes between the parts, ends where an atomic run ends
      in which the same changes arrive in the same order, each into the same multimap, and the same
      products come and go in the same order. */
  lemma SplitRunsAreRuns(s: MarketState, steps: seq<SplitStep>)
    ensures var turns := Atomic(false, [], steps);
      && Run(s, turns) == Settled(SplitRun(SplitState(s, None), steps))
      && (forall arrivals :: Kind(turns, arrivals) == Kind(Outsides(steps), arrivals))
      && (SplitArriving(SplitState(s, None), steps) ==> Arriving(s, turns))
  {
    SplitRefines(SplitState(s, None), [], steps);
    SameOutsides(false, [], steps, true);
    SameOutsides(false, [], steps, false);
    assert HeldGained([]);
  }
}
