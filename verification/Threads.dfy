/** The three threads of a product at the grain of their instructions, with the message mutex, and
    the proof that they behave like the atomic steps of the protocol and cannot block each other. */
module Threads {
  import opened OrderBooks
  import opened Messages
  import opened FeedProduct
  import Invariants

  datatype Thread = Receiver | Requester | Looper

  /** The receiver: from a message to the end of its critical section. */
  datatype ReceiverAt =
    | Idle
    | Arrived(message: FeedMessage)        // waits for the mutex
    | Checking(message: FeedMessage)       // holds it
    | Cleared                              // holds it; found a gap, the last number is zero
    | Joining                              // holds it; set the flag, waits for the old request thread
    | Leaving                              // holds it

  /** The request thread. */
  datatype RequesterAt =
    | Asking
    | Replied(number: Sequence, content: Option<Book>)                        // waits for the mutex
    | Entered(number: Sequence, content: Option<Book>)                        // holds it
    | Merging(number: Sequence, content: Option<Book>, merged: seq<Entry>)    // holds it; in the loop
    | Pushed                                                                  // holds it
    | Unlocking                                                               // holds it
    | Returning
    | Exited(installed: bool)

  /** The message loop. */
  datatype LooperAt =
    | Outside
    | Inside     // holds the mutex
    | Copied     // holds it; the queue is copied but not cleared
    | Finished   // holds it

  datatype Threads = Threads(
    queue: seq<Entry>, last: Sequence, requesting: bool,     // under the mutex
    batch: seq<Entry>, delivered: seq<Entry>,                // of the message loop
    holder: Option<Thread>, r: ReceiverAt, f: RequesterAt, l: LooperAt,
    gaps: nat, requests: nat, asked: nat)                    // gaps found, requests begun, gaps found at the last request

  const Start := Threads([], 0, true, [], [], None, Idle, Asking, Outside, 0, 1, 0)

  datatype Instruction =
    | Arrive(message: FeedMessage) | RAcquire | RCheck | RSetFlag | RJoinAndStart | RRelease
    | FReply(reply: Reply) | FAcquire | FSetLast | FMerge | FPush | FClearFlag | FRelease | FReturn
    | LAcquire | LCopy | LClear | LRelease | LDeliver

  /** One instruction; one whose thread is elsewhere, or blocked, changes nothing. */
  function Execute(x: Threads, i: Instruction): Threads {
    match i
    case Arrive(m) => if x.r.Idle? then x.(r := Arrived(m)) else x
    case RAcquire =>
      if x.r.Arrived? && x.holder == None then x.(r := Checking(x.r.message), holder := Some(Receiver)) else x
    case RCheck =>
      if !x.r.Checking? then x
      else
        var m := x.r.message;
        if x.requesting then x.(queue := x.queue + [Live(m)], r := Leaving)
        else if m.sequence > Succ(x.last) then x.(last := 0, r := Cleared, gaps := x.gaps + 1)
        else if m.sequence <= x.last then x.(r := Leaving)
        else x.(queue := x.queue + [Live(m)], last := m.sequence, r := Leaving)
    case RSetFlag => if x.r.Cleared? then x.(requesting := true, r := Joining) else x
    case RJoinAndStart => if x.r.Joining? && x.f.Exited? then x.(f := Asking, requests := x.requests + 1, asked := x.gaps, r := Leaving) else x
    case RRelease => if x.r.Leaving? then x.(r := Idle, holder := None) else x
    case FReply(reply) =>
      if !x.f.Asking? then x
      else if Usable(reply) then x.(f := Replied(reply.sequence.value, reply.content))
      else x.(f := Exited(false))
    case FAcquire =>
      if x.f.Replied? && x.holder == None then x.(f := Entered(x.f.number, x.f.content), holder := Some(Requester)) else x
    case FSetLast => if x.f.Entered? then x.(last := x.f.number, f := Merging(x.f.number, x.f.content, [])) else x
    case FMerge =>
      if !x.f.Merging? || x.queue == [] then x
      else if x.queue[0].Sequence() > x.f.number then
        x.(last := x.queue[0].Sequence(), queue := x.queue[1..], f := x.f.(merged := x.f.merged + [x.queue[0]]))
      else x.(queue := x.queue[1..])
    case FPush =>
      if x.f.Merging? && x.queue == [] then x.(queue := [Snapshot(x.f.number, x.f.content, x.f.merged)], f := Pushed) else x
    case FClearFlag => if x.f.Pushed? then x.(requesting := false, f := Unlocking) else x
    case FRelease => if x.f.Unlocking? then x.(f := Returning, holder := None) else x
    case FReturn => if x.f.Returning? then x.(f := Exited(true)) else x
    case LAcquire => if x.l.Outside? && x.batch == [] && x.holder == None then x.(l := Inside, holder := Some(Looper)) else x
    case LCopy =>
      if !x.l.Inside? then x
      else if x.requesting then x.(l := Finished)
      else x.(batch := x.queue, l := Copied)
    case LClear => if x.l.Copied? then x.(queue := [], l := Finished) else x
    case LRelease => if x.l.Finished? then x.(l := Outside, holder := None) else x
    case LDeliver =>
      if x.l.Outside? && x.batch != [] then x.(batch := x.batch[1..], delivered := x.delivered + [x.batch[0]]) else x
  }

  function ExecuteAll(x: Threads, trace: seq<Instruction>): Threads
    decreases trace
  {
    if trace == [] then x else ExecuteAll(Execute(x, trace[0]), trace[1..])
  }

  predicate ReceiverHolds(x: Threads) { x.r.Checking? || x.r.Cleared? || x.r.Joining? || x.r.Leaving? }
  predicate RequesterHolds(x: Threads) { x.f.Entered? || x.f.Merging? || x.f.Pushed? || x.f.Unlocking? }
  predicate LooperHolds(x: Threads) { x.l.Inside? || x.l.Copied? || x.l.Finished? }

  /** Mutual exclusion; the flag and where the request thread is; what half-done sections left behind. */
  ghost predicate Inv(x: Threads) {
    && (ReceiverHolds(x) <==> x.holder == Some(Receiver))
    && (RequesterHolds(x) <==> x.holder == Some(Requester))
    && (LooperHolds(x) <==> x.holder == Some(Looper))
    && (x.r.Cleared? || x.r.Joining? ==>
      && (x.f.Returning? || x.f == Exited(true)) && x.last == 0
      && x.requesting == x.r.Joining? && x.requests == x.gaps)
    && (!x.r.Cleared? && !x.r.Joining? ==>
      && (x.requesting <==> !x.f.Unlocking? && !x.f.Returning? && x.f != Exited(true))
      && x.requests == x.gaps + 1 && x.asked == x.gaps)
    && (x.f.Replied? || x.f.Entered? || x.f.Merging? ==> x.f.number != 0)
    && (x.f.Merging? ==> x.last == LastOf(x.f.merged, x.f.number))
    && (x.l.Inside? ==> x.batch == [])
    && (x.l.Copied? ==> x.batch == x.queue && !x.requesting)
  }

  lemma InvReceiver(x: Threads, i: Instruction)
    requires Inv(x) && (i.Arrive? || i.RAcquire? || i.RCheck? || i.RSetFlag? || i.RJoinAndStart? || i.RRelease?)
    ensures Inv(Execute(x, i))
  {}

  lemma InvRequester(x: Threads, i: Instruction)
    requires Inv(x) && (i.FReply? || i.FAcquire? || i.FSetLast? || i.FMerge? || i.FPush? || i.FClearFlag? || i.FRelease? || i.FReturn?)
    ensures Inv(Execute(x, i))
  {}

  lemma InvExecute(x: Threads, i: Instruction)
    requires Inv(x)
    ensures Inv(Execute(x, i))
  {
    if i.Arrive? || i.RAcquire? || i.RCheck? || i.RSetFlag? || i.RJoinAndStart? || i.RRelease? {
      InvReceiver(x, i);
    } else if !i.LAcquire? && !i.LCopy? && !i.LClear? && !i.LRelease? && !i.LDeliver? {
      InvRequester(x, i);
    }
  }

  function FetchOf(f: RequesterAt): Fetch {
    match f
    case Asking => Running
    case Replied(_, _) => Running
    case Exited(installed) => if installed then Installed else Failed
    case _ => Installed
  }

  /** The atomic state: what the shared variables will be when the critical section that has been
      entered, if any, is over. */
  function Abs(x: Threads): State {
    var s := State(x.queue, x.last, x.requesting, FetchOf(x.f), x.batch, x.delivered);
    if x.r.Checking? then Next(s, Receive(x.r.message))
    else if x.r.Cleared? || x.r.Joining? then s.(requesting := true, fetch := Running)
    else if x.f.Entered? then Install(s, x.f.number, x.f.content)
    else if x.f.Merging? then
      var merged := x.f.merged + Newer(x.queue, x.f.number);
      s.(queue := [Snapshot(x.f.number, x.f.content, merged)], last := LastOf(merged, x.f.number), requesting := false)
    else if x.f.Pushed? then s.(requesting := false)
    else if x.l.Inside? then Next(s, Drain)
    else if x.l.Copied? then s.(queue := [])
    else s
  }

  /** The atomic step that an instruction takes, if any: entering a critical section counts as all of it. */
  function StepOf(x: Threads, i: Instruction): seq<Step> {
    match i
    case RAcquire => if x.r.Arrived? && x.holder == None then [Receive(x.r.message)] else []
    case FReply(reply) => if x.f.Asking? && !Usable(reply) then [FetchComplete(reply)] else []
    case FAcquire => if x.f.Replied? && x.holder == None then [FetchComplete(Reply(Some(x.f.number), x.f.content))] else []
    case LAcquire => if x.l.Outside? && x.batch == [] && x.holder == None then [Drain] else []
    case LDeliver => if x.l.Outside? && x.batch != [] then [DeliverNext] else []
    case _ => []
  }

  function StepsOf(x: Threads, trace: seq<Instruction>): seq<Step>
    decreases trace
  {
    if trace == [] then [] else StepOf(x, trace[0]) + StepsOf(Execute(x, trace[0]), trace[1..])
  }

  lemma ReceiverRefines(x: Threads, i: Instruction)
    requires Inv(x) && (i.Arrive? || i.RAcquire? || i.RCheck? || i.RSetFlag? || i.RJoinAndStart? || i.RRelease?)
    ensures Abs(Execute(x, i)) == if StepOf(x, i) == [] then Abs(x) else Next(Abs(x), StepOf(x, i)[0])
  {}

  lemma AbsMerging(x: Threads, merged: seq<Entry>)
    requires Inv(x) && x.f.Merging? && merged == x.f.merged + Newer(x.queue, x.f.number)
    ensures Abs(x) == State([Snapshot(x.f.number, x.f.content, merged)], LastOf(merged, x.f.number), false, Installed, x.batch, x.delivered)
  {}

  lemma NewerStep(es: seq<Entry>, n: Sequence, merged: seq<Entry>)
    requires es != []
    ensures merged + Newer(es, n) == (if es[0].Sequence() > n then merged + [es[0]] else merged) + Newer(es[1..], n)
  {
    assert [] + Newer(es[1..], n) == Newer(es[1..], n);
    assert merged + ([es[0]] + Newer(es[1..], n)) == merged + [es[0]] + Newer(es[1..], n);
  }

  lemma MergeRefines(x: Threads)
    requires Inv(x) && x.f.Merging?
    ensures Abs(Execute(x, FMerge)) == Abs(x)
  {
    if x.queue != [] {
      var y, merged := Execute(x, FMerge), x.f.merged + Newer(x.queue, x.f.number);
      InvExecute(x, FMerge);
      NewerStep(x.queue, x.f.number, x.f.merged);
      AbsMerging(x, merged);
      AbsMerging(y, merged);
    }
  }

  lemma RequesterRefines(x: Threads, i: Instruction)
    requires Inv(x) && (i.FAcquire? || i.FSetLast? || i.FPush? || i.FClearFlag? || i.FRelease? || i.FReturn?)
    ensures Abs(Execute(x, i)) == if StepOf(x, i) == [] then Abs(x) else Next(Abs(x), StepOf(x, i)[0])
  {
    if x.f.Entered? {
      assert [] + Newer(x.queue, x.f.number) == Newer(x.queue, x.f.number);
    } else if x.f.Merging? {
      assert x.queue == [] ==> x.f.merged + Newer(x.queue, x.f.number) == x.f.merged;
    }
  }

  lemma ReplyRefines(x: Threads, reply: Reply)
    requires Inv(x)
    ensures Abs(Execute(x, FReply(reply))) == if StepOf(x, FReply(reply)) == [] then Abs(x) else Next(Abs(x), FetchComplete(reply))
  {}

  lemma LooperRefines(x: Threads, i: Instruction)
    requires Inv(x) && (i.LAcquire? || i.LCopy? || i.LClear? || i.LRelease? || i.LDeliver?)
    ensures Abs(Execute(x, i)) == if StepOf(x, i) == [] then Abs(x) else Next(Abs(x), StepOf(x, i)[0])
  {}

  /** One instruction is one atomic step or none. */
  lemma InstructionRefines(x: Threads, i: Instruction)
    requires Inv(x)
    ensures Abs(Execute(x, i)) == Run(Abs(x), StepOf(x, i))
  {
    assert StepOf(x, i) != [] ==> StepOf(x, i)[1..] == [];
    match i
    case FReply(reply) => ReplyRefines(x, reply);
    case FMerge => if x.f.Merging? { MergeRefines(x); }
    case Arrive(_) => ReceiverRefines(x, i);
    case RAcquire => ReceiverRefines(x, i);
    case RCheck => ReceiverRefines(x, i);
    case RSetFlag => ReceiverRefines(x, i);
    case RJoinAndStart => ReceiverRefines(x, i);
    case RRelease => ReceiverRefines(x, i);
    case LAcquire => LooperRefines(x, i);
    case LCopy => LooperRefines(x, i);
    case LClear => LooperRefines(x, i);
    case LRelease => LooperRefines(x, i);
    case LDeliver => LooperRefines(x, i);
    case _ => RequesterRefines(x, i);
  }

  lemma {:induction false} InstructionsRefine(x: Threads, trace: seq<Instruction>)
    requires Inv(x)
    ensures Inv(ExecuteAll(x, trace)) && Abs(ExecuteAll(x, trace)) == Run(Abs(x), StepsOf(x, trace))
    decreases trace
  {
    if trace != [] {
      var y := Execute(x, trace[0]);
      InvExecute(x, trace[0]);
      InstructionRefines(x, trace[0]);
      InstructionsRefine(y, trace[1..]);
      RunConcat(Abs(x), StepOf(x, trace[0]), StepsOf(y, trace[1..]));
    }
  }

  /** What is handed over is never hidden by a critical section, and nothing is when no thread is in one. */
  lemma AbsIsVisible(x: Threads)
    requires Inv(x)
    ensures x.delivered == Abs(x).delivered
    ensures x.holder == None ==> x.queue == Abs(x).queue && x.last == Abs(x).last && x.requesting == Abs(x).requesting && x.batch == Abs(x).batch
  {
    if x.holder == None {
      assert !ReceiverHolds(x) && !RequesterHolds(x) && !LooperHolds(x);
    }
  }

  /** Every interleaving of the threads' instructions is a run of the atomic protocol: what it has
      handed over is at every instant what that run has handed over, and whenever the mutex is free the
      shared variables are those of that run, so that an order book is being requested exactly when the
      last number is zero. */
  lemma InterleavingsAreRuns(trace: seq<Instruction>)
    ensures var x, s := ExecuteAll(Start, trace), Run(Initial, StepsOf(Start, trace));
      && Abs(x) == s && x.delivered == s.delivered
      && (x.holder == None ==>
        && x.queue == s.queue && x.last == s.last && x.requesting == s.requesting && x.batch == s.batch
        && (x.requesting <==> x.last == 0))
  {
    InstructionsRefine(Start, trace);
    AbsIsVisible(ExecuteAll(Start, trace));
    Invariants.EveryReachableState(StepsOf(Start, trace));
  }

  lemma StartsOneRequest(x: Threads)
    requires Inv(x) && Execute(x, RJoinAndStart).requests != x.requests
    ensures x.f == Exited(true) && x.requests == x.gaps
  {}

  /** In every interleaving: the receiver joins, with the mutex held, only a request thread that is
      past its critical section; a request is begun only when the one before it is over; and each
      gap has had its own request at every instant, except while the receiver is about to begin it. And
      while an order book is merged and queued, as many gaps have been found as when it was requested:
      it was requested after the last gap. */
  lemma JoinAndInstallAreSafe(trace: seq<Instruction>)
    ensures var x := ExecuteAll(Start, trace);
      && (x.r.Joining? ==> x.f.Returning? || x.f == Exited(true))
      && (Execute(x, RJoinAndStart).requests != x.requests ==> x.f == Exited(true) && x.requests == x.gaps)
      && x.requests == (if x.r.Cleared? || x.r.Joining? then x.gaps else x.gaps + 1)
      && (x.f.Entered? || x.f.Merging? || x.f.Pushed? ==> x.asked == x.gaps)
  {
    InstructionsRefine(Start, trace);
    var x := ExecuteAll(Start, trace);
    if Execute(x, RJoinAndStart).requests != x.requests {
      StartsOneRequest(x);
    }
  }

  // No deadlock.

  /** The next instruction of the thread that holds the mutex, or the one it waits for. */
  function Unblock(x: Threads): Instruction {
    match x.r
    case Checking(_) => RCheck
    case Cleared => RSetFlag
    case Joining => if x.f.Returning? then FReturn else RJoinAndStart
    case Leaving => RRelease
    case _ =>
      match x.f
      case Entered(_, _) => FSetLast
      case Merging(_, _, _) => if x.queue == [] then FPush else FMerge
      case Pushed => FClearFlag
      case Unlocking => FRelease
      case _ => if x.l.Inside? then LCopy else if x.l.Copied? then LClear else LRelease
  }

  /** An upper bound of the instructions until the mutex is free. */
  function Distance(x: Threads): nat {
    match x.r
    case Checking(_) => 5
    case Cleared => 4
    case Joining => if x.f.Returning? then 3 else 2
    case Leaving => 1
    case _ =>
      match x.f
      case Entered(_, _) => |x.queue| + 4
      case Merging(_, _, _) => |x.queue| + 3
      case Pushed => 2
      case Unlocking => 1
      case _ => if x.l.Inside? then 3 else if x.l.Copied? then 2 else if x.l.Finished? then 1 else 0
  }

  lemma UnblockGetsCloser(x: Threads)
    requires Inv(x) && x.holder != None
    ensures Distance(Execute(x, Unblock(x))) < Distance(x)
  {
    match x.holder.value
    case Receiver =>
    case Requester => assert x.r.Idle? || x.r.Arrived?;
    case Looper => assert x.r.Idle? || x.r.Arrived?; assert !RequesterHolds(x);
  }

  /** From every state that can be reached, whoever holds the mutex gives it back within a bounded
      number of instructions, none of which waits for the mutex. */
  lemma {:induction false} MutexIsReleased(x: Threads) returns (trace: seq<Instruction>)
    requires Inv(x)
    ensures |trace| <= Distance(x) && ExecuteAll(x, trace).holder == None
    ensures forall i :: i in trace ==> !i.RAcquire? && !i.FAcquire? && !i.LAcquire? && !i.Arrive? && !i.FReply?
    decreases Distance(x)
  {
    if x.holder == None {
      trace := [];
    } else {
      var i := Unblock(x);
      InvExecute(x, i);
      UnblockGetsCloser(x);
      var rest := MutexIsReleased(Execute(x, i));
      trace := [i] + rest;
      assert trace[1..] == rest;
    }
  }

  /** How often a schedule runs the thread that the mutex waits for. */
  function HolderTurns(x: Threads, trace: seq<Instruction>): nat
    decreases trace
  {
    if trace == [] then 0
    else (if x.holder != None && trace[0] == Unblock(x) then 1 else 0) + HolderTurns(Execute(x, trace[0]), trace[1..])
  }

  /** The other instructions do not bring the holder back. */
  lemma OthersDoNotDelay(x: Threads, i: Instruction)
    requires Inv(x) && x.holder != None && i != Unblock(x)
    ensures Distance(Execute(x, i)) <= Distance(x)
  {
    match x.holder.value
    case Receiver =>
    case Requester => assert !ReceiverHolds(x) && !LooperHolds(x);
    case Looper => assert !ReceiverHolds(x) && !RequesterHolds(x);
  }

  /** Every schedule, from every state that can be reached, that runs the holder, or the thread it
      waits for, often enough releases the mutex, whatever else it runs in between. */
  lemma {:induction false} EveryScheduleReleases(x: Threads, trace: seq<Instruction>) returns (k: nat)
    requires Inv(x) && HolderTurns(x, trace) >= Distance(x)
    ensures k <= |trace| && ExecuteAll(x, trace[..k]).holder == None
    decreases trace
  {
    if x.holder == None {
      k := 0;
    } else {
      UnblockGetsCloser(x);
      var i, rest := trace[0], trace[1..];
      if i != Unblock(x) {
        OthersDoNotDelay(x, i);
      }
      InvExecute(x, i);
      var j := EveryScheduleReleases(Execute(x, i), rest);
      k := j + 1;
      assert trace[..k][1..] == rest[..j];
    }
  }
}
