/** The hotcall protocol: a requester (`hotcall-untrusted.c`, the `HCALL` macro of `app.c`) and the
    poller in the enclave (`hotcall-trusted.c`), as interleaved steps on shared memory. */
module Hotcall {
  import opened Sequences
  import opened Options

  /** `struct function_call`: the function, its arguments and where to put the result. */
  datatype Call = Call(id: nat, args: seq<nat>, ret: nat)

  const SLOTS: nat := 20

  /** Where the requester stands. */
  datatype Requester =
    | Ready                 // between calls
    | Linking(slot: nat)    // has filled a slot; about to put it on the queue
    | Resetting             // make_hotcall: about to clear is_done
    | Starting              // about to set run
    | Spinning              // about to take the lock
    | Checking              // holds the lock; about to read is_done
    | Leaving(done: bool)   // about to release the lock

  /** Where the poller stands. */
  datatype Poller =
    | Polling                                      // about to take the lock
    | Testing                                      // holds the lock; about to read run
    | Clearing                                     // about to clear run
    | Fetching                                     // about to read the head of the queue
    | Running(cur: nat, next: Option<nat>)         // about to execute a call
    | Unlinking(cur: nat, next: Option<nat>)       // about to remove it
    | Finishing                                    // about to set is_done
    | Unlocking                                    // about to release the lock

  datatype Lock = Free | ByRequester | ByPoller

  /** `issued` and `ran` record the calls made and the calls executed; no step depends on them. */
  datatype State = State(
    run: bool, isDone: bool, lock: Lock,
    slots: seq<Call>, idx: nat, queue: seq<nat>,
    requester: Requester, poller: Poller,
    issued: seq<Call>, ran: seq<Call>)

  datatype Step =
    | Issue(call: Call) | Link(sync: bool) | Reset | Start | Acquire | Check | Release
    | PollAcquire | Test | Clear | Fetch | Execute | Unlink | Finish | PollRelease

  ghost predicate Init(s: State) {
    && !s.run && s.lock == Free && |s.slots| == SLOTS && s.idx == 0 && s.queue == []
    && s.requester == Ready && s.poller == Polling && s.issued == [] && s.ran == []
  }

  predicate OfRequester(step: Step) {
    step.Issue? || step.Link? || step.Reset? || step.Start? || step.Acquire? || step.Check? || step.Release?
  }

  /** Which step can be taken. A call is issued only while fewer than 20 are outstanding: this is up
      to the callers, the code does not look. */
  predicate Enabled(s: State, step: Step) {
    match step
    case Issue(_) => s.requester == Ready && |s.queue| < SLOTS
    case Link(_) => s.requester.Linking?
    case Reset => s.requester == Resetting
    case Start => s.requester == Starting
    case Acquire => s.requester == Spinning && s.lock == Free
    case Check => s.requester == Checking
    case Release => s.requester.Leaving?
    case PollAcquire => s.poller == Polling && s.lock == Free
    case Test => s.poller == Testing
    case Clear => s.poller == Clearing
    case Fetch => s.poller == Fetching
    case Execute => s.poller.Running?
    case Unlink => s.poller.Unlinking?
    case Finish => s.poller == Finishing
    case PollRelease => s.poller == Unlocking
  }

  function Head(queue: seq<nat>): Option<nat> {
    if queue == [] then None else Some(queue[0])
  }

  /** The node after a node, as `list_node.next` says. */
  function After(queue: seq<nat>, slot: nat): Option<nat> {
    if queue == [] then None else if queue[0] == slot then Head(queue[1..]) else After(queue[1..], slot)
  }

  /** `LIST_FOR_EACH_SAFE` at a node: reads the next one, then runs the body. */
  function At(queue: seq<nat>, node: Option<nat>): Poller {
    match node
    case None => Finishing
    case Some(slot) => Running(slot, After(queue, slot))
  }

  function Next(s: State, step: Step): State
    requires Enabled(s, step)
  {
    match step
    case Issue(call) =>
      if s.idx < |s.slots| then
        s.(slots := s.slots[s.idx := call], idx := if s.idx + 1 == SLOTS then 0 else s.idx + 1,
           requester := Linking(s.idx), issued := s.issued + [call])
      else s
    case Link(sync) => s.(queue := s.queue + [s.requester.slot], requester := if sync then Resetting else Ready)
    case Reset => s.(isDone := false, requester := Starting)
    case Start => s.(run := true, requester := Spinning)
    case Acquire => s.(lock := ByRequester, requester := Checking)
    case Check => s.(requester := Leaving(s.isDone))
    case Release => s.(lock := Free, requester := if s.requester.done then Ready else Spinning)
    case PollAcquire => s.(lock := ByPoller, poller := Testing)
    case Test => s.(poller := if s.run then Clearing else Unlocking)
    case Clear => s.(run := false, poller := Fetching)
    case Fetch => s.(poller := At(s.queue, Head(s.queue)))
    case Execute =>
      s.(ran := if s.poller.cur < |s.slots| then s.ran + [s.slots[s.poller.cur]] else s.ran,
         poller := Unlinking(s.poller.cur, s.poller.next))
    case Unlink =>
      var rest := Without(s.queue, s.poller.cur);
      s.(queue := rest, poller := At(rest, s.poller.next))
    case Finish => s.(isDone := true, poller := Unlocking)
    case PollRelease => s.(lock := Free, poller := Polling)
  }

  ghost predicate IsRun(s: State, steps: seq<Step>, t: State)
    decreases |steps|
  {
    if steps == [] then s == t else Enabled(s, steps[0]) && IsRun(Next(s, steps[0]), steps[1..], t)
  }

  /** The calls issued in a run, in order. */
  function Issued(steps: seq<Step>): seq<Call> {
    if steps == [] then [] else (if steps[0].Issue? then [steps[0].call] else []) + Issued(steps[1..])
  }

  // ---- the invariant ----

  /** The requester is using the queue or the slots. */
  predicate Preparing(s: State) {
    s.requester == Ready || s.requester.Linking? || s.requester == Resetting || s.requester == Starting
  }

  /** The poller is going through the queue. */
  predicate Serving(s: State) {
    s.poller == Fetching || s.poller.Running? || s.poller.Unlinking? || s.poller == Finishing
  }

  predicate Waiting(s: State) {
    s.requester == Spinning || s.requester == Checking || s.requester.Leaving?
  }

  ghost predicate LockInv(s: State) {
    && (s.lock == ByRequester <==> s.requester == Checking || s.requester.Leaving?)
    && (s.lock == ByPoller <==> s.poller != Polling)
  }

  ghost predicate FlagInv(s: State) {
    && (Preparing(s) ==> !s.run && !Serving(s) && s.poller != Clearing)
    && (s.requester == Starting ==> !s.isDone)
    && (s.poller == Clearing ==> s.run)
    && (Serving(s) ==> !s.run && !s.isDone)
    && (Waiting(s) ==> !(s.run && s.isDone))
    && (Waiting(s) && s.isDone ==> s.queue == [])
    && (Waiting(s) && !s.run && !s.isDone ==> Serving(s))
    && (s.requester.Leaving? && s.requester.done ==> s.isDone)
    && (s.poller == Finishing ==> s.queue == [])
  }

  /** The slots on the queue, and the one about to be put there. */
  function Linked(s: State): seq<nat> {
    if s.requester.Linking? then s.queue + [s.requester.slot] else s.queue
  }

  /** The slot that lies `back` slots before `idx` in the ring. */
  function Behind(idx: nat, back: nat): nat
    requires idx < SLOTS && back <= SLOTS
  {
    if back <= idx then idx - back else idx + SLOTS - back
  }

  /** The slots in use are the last ones handed out, oldest first. */
  ghost predicate RingInv(s: State) {
    && |s.slots| == SLOTS && s.idx < SLOTS && |Linked(s)| <= SLOTS
    && forall i | 0 <= i < |Linked(s)| :: Linked(s)[i] == Behind(s.idx, |Linked(s)| - i)
  }

  /** The poller looks at the head of the queue, and knows what comes next. */
  ghost predicate CursorInv(s: State) {
    s.poller.Running? || s.poller.Unlinking? ==>
      s.queue != [] && s.poller.cur == s.queue[0] && s.poller.next == Head(s.queue[1..])
  }

  /** The slots whose calls have not been executed. */
  function Pending(s: State): seq<nat> {
    if s.poller.Unlinking? && Linked(s) != [] then Linked(s)[1..] else Linked(s)
  }

  function Contents(slots: seq<Call>, at: seq<nat>): seq<Call> {
    seq(|at|, i requires 0 <= i < |at| => if at[i] < |slots| then slots[at[i]] else Call(0, [], 0))
  }

  /** Every issued call has been executed or is pending, in order. */
  ghost predicate LedgerInv(s: State) {
    s.issued == s.ran + Contents(s.slots, Pending(s))
  }

  ghost predicate Inv(s: State) {
    LockInv(s) && FlagInv(s) && RingInv(s) && CursorInv(s) && LedgerInv(s)
  }

  lemma InitInv(s: State)
    requires Init(s)
    ensures Inv(s)
  {
  }

  lemma LockKept(s: State, step: Step)
    requires LockInv(s) && Enabled(s, step)
    ensures LockInv(Next(s, step))
  {
    hide Without, After;
  }

  /** A slot that is handed out is not on the queue, if and only if fewer than 20 are. */
  lemma FreshSlotIff(s: State)
    requires RingInv(s) && s.requester == Ready
    ensures s.idx !in s.queue <==> |s.queue| < SLOTS
  {
    if |s.queue| == SLOTS { assert s.queue[0] == Behind(s.idx, SLOTS) == s.idx; }
  }

  lemma RingKept(s: State, step: Step)
    requires RingInv(s) && CursorInv(s) && FlagInv(s) && Enabled(s, step)
    ensures RingInv(Next(s, step))
  {
    hide After;
    var t := Next(s, step);
    if step.Unlink? { assert Linked(t) == Linked(s)[1..]; }
    if step.Issue? { assert Linked(t) == Linked(s) + [s.idx]; }
    if step.Link? { assert Linked(t) == Linked(s); }
  }

  lemma AfterHead(queue: seq<nat>)
    requires queue != []
    ensures After(queue, queue[0]) == Head(queue[1..]) && Without(queue, queue[0]) == queue[1..]
  {
  }

  lemma CursorKept(s: State, step: Step)
    requires CursorInv(s) && FlagInv(s) && Enabled(s, step)
    ensures CursorInv(Next(s, step))
  {
  }

  lemma FlagKept(s: State, step: Step)
    requires LockInv(s) && FlagInv(s) && CursorInv(s) && Enabled(s, step)
    ensures FlagInv(Next(s, step))
  {
    hide After, Without;
    if s.queue != [] { AfterHead(s.queue); }
  }

  lemma LedgerKept(s: State, step: Step)
    requires LedgerInv(s) && RingInv(s) && CursorInv(s) && FlagInv(s) && Enabled(s, step)
    ensures LedgerInv(Next(s, step))
  {
    hide After, Without, Contents;
    if s.queue != [] { AfterHead(s.queue); }
    var t := Next(s, step);
    match step
    case Issue(call) => IssueContents(s, call);
    case Execute => ExecuteContents(s);
    case Link(_) => assert Pending(t) == Pending(s);
    case Unlink => assert Pending(t) == Pending(s);
    case _ =>
  }

  /** Filling a free slot adds its call to the end of what is pending. */
  lemma IssueContents(s: State, call: Call)
    requires RingInv(s) && FlagInv(s) && Enabled(s, Issue(call))
    ensures var t := Next(s, Issue(call)); Contents(t.slots, Pending(t)) == Contents(s.slots, Pending(s)) + [call]
  {
    FreshSlotIff(s);
  }

  lemma ExecuteContents(s: State)
    requires RingInv(s) && CursorInv(s) && FlagInv(s) && Enabled(s, Execute)
    ensures var t := Next(s, Execute); t.ran + Contents(t.slots, Pending(t)) == s.ran + Contents(s.slots, Pending(s))
  {
  }

  lemma StepKeepsInv(s: State, step: Step)
    requires Inv(s) && Enabled(s, step)
    ensures Inv(Next(s, step))
  {
    hide LockInv, FlagInv, RingInv, CursorInv, LedgerInv, Next, Enabled;
    LockKept(s, step);
    FlagKept(s, step);
    RingKept(s, step);
    CursorKept(s, step);
    LedgerKept(s, step);
  }

  /** The invariant holds in every state of every interleaving. */
  lemma {:induction false} RunKeepsInv(s: State, steps: seq<Step>, t: State)
    requires Inv(s) && IsRun(s, steps, t)
    ensures Inv(t) && t.issued == s.issued + Issued(steps)
    decreases |steps|
  {
    hide Inv, Next, Enabled;
    if steps != [] {
      var now := if steps[0].Issue? then [steps[0].call] else [];
      StepKeepsInv(s, steps[0]);
      IssuedStep(s, steps[0]);
      RunKeepsInv(Next(s, steps[0]), steps[1..], t);
      assert (s.issued + now) + Issued(steps[1..]) == s.issued + (now + Issued(steps[1..]));
    }
  }

  lemma IssuedStep(s: State, step: Step)
    requires Inv(s) && Enabled(s, step)
    ensures Next(s, step).issued == s.issued + if step.Issue? then [step.call] else []
  {
    hide After, Without;
  }

  // ---- what the protocol promises ----

  /** When `make_hotcall` returns, every call issued since the start has been executed, once and in
      order, and the queue is empty. */
  lemma ReturnMeansDone(s: State, steps: seq<Step>, t: State)
    requires Init(s) && IsRun(s, steps, t) && t.requester.Leaving? && t.requester.done
    ensures t.ran == Issued(steps) && t.queue == [] && !t.run
    ensures Next(t, Release).requester == Ready && Next(t, Release).ran == t.ran && Next(t, Release).queue == []
  {
    hide LockInv, RingInv, CursorInv;
    InitInv(s);
    RunKeepsInv(s, steps, t);
    assert Contents(t.slots, Pending(t)) == [];
    assert t.issued == Issued(steps);
  }

  /** Whether the last call put on the queue was synchronous. */
  function LastLink(steps: seq<Step>): Option<bool> {
    if steps == [] then None
    else if LastLink(steps[1..]).Some? then LastLink(steps[1..])
    else if steps[0].Link? then Some(steps[0].sync)
    else None
  }

  /** The requester is between calls only with an empty queue. */
  predicate Cleared(s: State) {
    s.requester == Ready ==> s.queue == []
  }

  lemma ClearedKept(s: State, step: Step)
    requires Inv(s) && Enabled(s, step) && (Cleared(s) || step.Link?) && step != Link(false)
    ensures Cleared(Next(s, step))
  {
    hide After, Without, RingInv, LedgerInv;
  }

  lemma {:induction false} ClearedSince(s: State, steps: seq<Step>, t: State)
    requires Inv(s) && IsRun(s, steps, t)
    requires LastLink(steps) == Some(true) || (LastLink(steps) == None && Cleared(s))
    ensures Cleared(t)
    decreases |steps|
  {
    if steps != [] {
      hide Inv, Next, Enabled, Cleared;
      var now := Next(s, steps[0]);
      StepKeepsInv(s, steps[0]);
      if LastLink(steps[1..]) == None { ClearedKept(s, steps[0]); }
      ClearedSince(now, steps[1..], t);
    }
  }

  /** A synchronous call is over only when it has run: if the last call put on the queue was
      synchronous and the requester is between calls, then every call issued has been executed, once
      and in order, and the queue is empty. */
  lemma SyncMeansDone(s: State, steps: seq<Step>, t: State)
    requires Init(s) && IsRun(s, steps, t) && LastLink(steps) == Some(true) && t.requester == Ready
    ensures t.ran == Issued(steps) && t.queue == [] && !t.run
  {
    hide LockInv, RingInv, CursorInv;
    InitInv(s);
    RunKeepsInv(s, steps, t);
    ClearedSince(s, steps, t);
    assert Contents(t.slots, Pending(t)) == [];
    assert t.issued == Issued(steps);
  }

  /** An asynchronous call leaves the requester free at once, with the call on the queue and nothing
      more executed; a synchronous one does not. */
  lemma AsyncReturnsAtOnce(s: State, sync: bool)
    requires Inv(s) && s.requester.Linking?
    ensures var t := Next(s, Link(sync));
            && (t.requester == Ready <==> !sync) && t.ran == s.ran && !t.run
            && |t.queue| == |s.queue| + 1 && t.queue[|s.queue|] == s.requester.slot && t.queue[..|s.queue|] == s.queue
  {
    hide After, Without, RingInv, LedgerInv;
  }

  /** At every moment the executed calls are a prefix of the issued ones. */
  lemma NeverTwice(s: State, steps: seq<Step>, t: State)
    requires Init(s) && IsRun(s, steps, t)
    ensures t.ran <= Issued(steps)
  {
    InitInv(s);
    RunKeepsInv(s, steps, t);
    assert t.issued == Issued(steps);
  }

  /** While the requester fills a slot or appends to the queue, the poller neither reads nor changes
      either, and the slot it fills is not on the queue. */
  lemma NoSharing(s: State, steps: seq<Step>, t: State)
    requires Init(s) && IsRun(s, steps, t)
    ensures t.requester == Ready || t.requester.Linking? ==> !Serving(t) && t.poller != Clearing && !t.run
    ensures t.requester == Ready ==> (t.idx !in t.queue <==> |t.queue| < SLOTS)
    ensures t.requester.Linking? ==> t.requester.slot !in t.queue
  {
    InitInv(s);
    RunKeepsInv(s, steps, t);
    if t.requester == Ready { FreshSlotIff(t); }
    if t.requester.Linking? {
      var all := Linked(t);
      assert all[|t.queue|] == t.requester.slot;
      forall i | 0 <= i < |t.queue| ensures t.queue[i] != t.requester.slot { assert all[i] == t.queue[i]; }
    }
  }

  /** The lock keeps the two apart. */
  lemma MutualExclusion(s: State, steps: seq<Step>, t: State)
    requires Init(s) && IsRun(s, steps, t)
    ensures !((t.requester == Checking || t.requester.Leaving?) && t.poller != Polling)
  {
    InitInv(s);
    RunKeepsInv(s, steps, t);
  }

  // ---- the requester does not wait for ever ----

  /** A bound on the steps the poller needs before it sets `is_done`. */
  function Work(s: State): nat {
    if s.isDone then 0 else
      var n := 2 * |s.queue|;
      match s.poller
      case Unlocking => n + 7
      case Polling => n + 6
      case Testing => n + 5
      case Clearing => n + 4
      case Fetching => n + 3
      case Running(_, _) => n + 2
      case Unlinking(_, _) => n + 1
      case Finishing => 1
  }

  /** While the requester waits, every step of the poller brings `is_done` nearer, and no step of the
      requester puts it off. */
  lemma WorkShrinks(s: State, step: Step)
    requires Inv(s) && Enabled(s, step) && Waiting(s) && !s.isDone
    ensures if OfRequester(step) then Work(Next(s, step))
            == Work(s) && Waiting(Next(s, step)) else Work(Next(s, step)) < Work(s)
  {
  }

  function PollerSteps(steps: seq<Step>): nat {
    if steps == [] then 0 else (if OfRequester(steps[0]) then 0 else 1) + PollerSteps(steps[1..])
  }

  /** From any moment at which the requester waits, either it has seen `is_done` set in the run or the
      poller has taken fewer steps than the bound. */
  lemma {:induction false} WaitIsBounded(s: State, steps: seq<Step>, t: State)
    requires Inv(s) && Waiting(s) && IsRun(s, steps, t) && PollerSteps(steps) >= Work(s)
    ensures exists k | 0 <= k <= |steps| :: DoneAfter(s, steps[..k])
    decreases |steps|
  {
    if s.isDone {
      assert steps[..0] == [];
      assert DoneAfter(s, steps[..0]);
    } else if steps != [] {
      var n := Next(s, steps[0]);
      StepKeepsInv(s, steps[0]);
      WorkShrinks(s, steps[0]);
      assert Waiting(n);
      WaitIsBounded(n, steps[1..], t);
      var k :| 0 <= k <= |steps[1..]| && DoneAfter(n, steps[1..][..k]);
      assert steps[..k + 1][0] == steps[0] && steps[..k + 1][1..] == steps[1..][..k];
      assert DoneAfter(s, steps[..k + 1]);
    }
  }

  /** Once `is_done` is set, the requester's next look at it ends the call. */
  lemma SeenDoneReturns(s: State)
    requires Inv(s) && s.requester == Spinning && s.isDone && s.lock == Free
    ensures Enabled(s, Acquire) && Enabled(Next(s, Acquire), Check) && Enabled(Next(Next(s, Acquire), Check), Release)
    ensures var t := Next(Next(Next(s, Acquire), Check), Release);
            t.requester == Ready && t.queue == [] && t.ran == t.issued == s.issued
  {
    hide After, Without, RingInv, CursorInv;
    assert Contents(s.slots, Pending(s)) == [];
  }

  /** The steps lead to a state in which `is_done` is set. */
  ghost predicate DoneAfter(s: State, steps: seq<Step>)
    decreases |steps|
  {
    if steps == [] then s.isDone else Enabled(s, steps[0]) && DoneAfter(Next(s, steps[0]), steps[1..])
  }

  /** Some step is possible at every moment, so the protocol cannot block. */
  lemma NeverStuck(s: State)
    requires Inv(s)
    ensures exists step :: Enabled(s, step) && !step.Issue?
  {
    var step := match s.poller
      case Polling =>
        if s.lock == Free then PollAcquire else if s.requester == Checking then Check else Release
      case Testing => Test
      case Clearing => Clear
      case Fetching => Fetch
      case Running(_, _) => Execute
      case Unlinking(_, _) => Unlink
      case Finishing => Finish
      case Unlocking => PollRelease;
    assert Enabled(s, step);
  }
}
