/** The USB transmit throttle: senders and completion handlers on several processors share one atomic
    counter and the list of waiting URBs. Each step below is one atomic action of one of them. */
module UrbThrottle {

  type Urb = nat

  const MAX_TX_URBS := 8

  /** Where one processor is in `r92su_tx_schedule` or `r92su_tx_usb_cb`. */
  datatype Thread =
    | Idle
    | Starting
    | Admitted
    | Holding(urb: Urb)
    | Retreating
    | Called(urb: Urb)

  datatype State = State(
    pending: int,
    wait: seq<Urb>,
    submitted: multiset<Urb>,
    threads: seq<Thread>,
    issued: multiset<Urb>,
    finished: multiset<Urb>,
    failed: multiset<Urb>)

  datatype Event =
    | Send(t: nat, urb: Urb)
    | Increment(t: nat)
    | Get(t: nat)
    | Submit(t: nat, ok: bool)
    | Decrement(t: nat)
    | GiveBack(t: nat, urb: Urb)
    | CallbackDecrement(t: nat)

  function Goto(s: State, t: nat, next: Thread): State {
    if t < |s.threads| then s.(threads := s.threads[t := next]) else s
  }

  /** One atomic action; nothing happens where the processor is not at that action. */
  function Step(s: State, e: Event): State {
    if e.t >= |s.threads| then s
    else
      match (e, s.threads[e.t])
      case (Send(t, urb), Idle) => Goto(s.(wait := s.wait + [urb], issued := s.issued + multiset{urb}), t, Starting)
      case (Increment(t), Starting) =>
        Goto(s.(pending := s.pending + 1), t, if s.pending + 1 > MAX_TX_URBS then Retreating else Admitted)
      case (Get(t), Admitted) =>
        if s.wait == [] then Goto(s, t, Retreating) else Goto(s.(wait := s.wait[1..]), t, Holding(s.wait[0]))
      case (Submit(t, ok), Holding(urb)) =>
        if ok then Goto(s.(submitted := s.submitted + multiset{urb}), t, Idle)
        else Goto(s.(failed := s.failed + multiset{urb}), t, Retreating)
      case (Decrement(t), Retreating) => Goto(s.(pending := s.pending - 1), t, Idle)
      case (GiveBack(t, urb), Idle) =>
        if urb in s.submitted then Goto(s.(submitted := s.submitted - multiset{urb}), t, Called(urb)) else s
      case (CallbackDecrement(t), Called(urb)) =>
        Goto(s.(pending := s.pending - 1, finished := s.finished + multiset{urb}), t, Starting)
      case _ => s
  }

  function Run(s: State, es: seq<Event>): State {
    if es == [] then s else Step(Run(s, es[..|es| - 1]), es[|es| - 1])
  }

  function Start(processors: nat): State {
    State(0, [], multiset{}, seq(processors, _ => Idle), multiset{}, multiset{}, multiset{})
  }

  // ---------------------------------------------------------------------------------------------
  // Every interleaving

  /** A place among the eight: about to take a URB, holding one, or not yet done with one given back. */
  function Slot(t: Thread): nat {
    if t.Admitted? || t.Holding? || t.Called? then 1 else 0
  }

  function Counted(t: Thread): nat {
    Slot(t) + if t.Retreating? then 1 else 0
  }

  function Carries(t: Thread, urb: Urb): nat {
    if (t.Holding? || t.Called?) && t.urb == urb then 1 else 0
  }

  function Slots(ts: seq<Thread>): nat {
    if ts == [] then 0 else Slots(ts[1..]) + Slot(ts[0])
  }

  function AllCounted(ts: seq<Thread>): nat {
    if ts == [] then 0 else AllCounted(ts[1..]) + Counted(ts[0])
  }

  function AllCarried(ts: seq<Thread>, urb: Urb): nat {
    if ts == [] then 0 else AllCarried(ts[1..], urb) + Carries(ts[0], urb)
  }

  lemma {:induction false} Replace(ts: seq<Thread>, i: nat, x: Thread)
    requires i < |ts|
    ensures Slots(ts[i := x]) + Slot(ts[i]) == Slots(ts) + Slot(x)
    ensures AllCounted(ts[i := x]) + Counted(ts[i]) == AllCounted(ts) + Counted(x)
  {
    hide Slot, Counted;
    if i == 0 {
      assert ts[0 := x][1..] == ts[1..];
    } else {
      Replace(ts[1..], i - 1, x);
      assert ts[i := x][1..] == ts[1..][i - 1 := x];
    }
  }

  lemma {:induction false} ReplaceCarried(ts: seq<Thread>, i: nat, x: Thread, urb: Urb)
    requires i < |ts|
    ensures AllCarried(ts[i := x], urb) + Carries(ts[i], urb) == AllCarried(ts, urb) + Carries(x, urb)
  {
    hide Carries;
    if i == 0 {
      assert ts[0 := x][1..] == ts[1..];
    } else {
      ReplaceCarried(ts[1..], i - 1, x, urb);
      assert ts[i := x][1..] == ts[1..][i - 1 := x];
    }
  }

  /** In how many places a URB is: waiting, in the hands of a processor, with the hardware, done, failed. */
  function Places(s: State, urb: Urb): nat {
    multiset(s.wait)[urb] + AllCarried(s.threads, urb) + s.submitted[urb] + s.finished[urb] + s.failed[urb]
  }

  /** The counter counts the URBs out there and everyone between incrementing and decrementing; at most
      eight of them have a place. */
  ghost predicate Bounded(s: State) {
    && s.pending == AllCounted(s.threads) + |s.submitted|
    && Slots(s.threads) + |s.submitted| <= MAX_TX_URBS
  }

  lemma {:induction false} SlotsAreCounted(ts: seq<Thread>)
    ensures Slots(ts) <= AllCounted(ts)
  {
    if ts != [] {
      SlotsAreCounted(ts[1..]);
    }
  }

  lemma {:induction false} StepBounded(s: State, e: Event)
    requires Bounded(s)
    ensures Bounded(Step(s, e))
  {
    hide Slots, AllCounted;
    if e.t < |s.threads| {
      SlotsAreCounted(s.threads);
      Replace(s.threads, e.t, Step(s, e).threads[e.t]);
    }
  }

  /** A step moves URBs from place to place. */
  lemma {:induction false} StepKeepsPlaces(s: State, e: Event, urb: Urb)
    requires Places(s, urb) == s.issued[urb]
    ensures Places(Step(s, e), urb) == Step(s, e).issued[urb]
  {
    hide AllCarried;
    if e.t < |s.threads| {
      ReplaceCarried(s.threads, e.t, Step(s, e).threads[e.t], urb);
      if e.Get? {
        GetKeepsPlaces(s, e.t, urb);
      } else if e.Send? {
        SendKeepsPlaces(s, e.t, e.urb, urb);
      } else if e.GiveBack? || e.CallbackDecrement? {
        BackKeepsPlaces(s, e, urb);
      } else {
        assert Step(s, e).wait == s.wait;
      }
    }
  }

  lemma {:induction false} GetKeepsPlaces(s: State, t: nat, urb: Urb)
    requires t < |s.threads|
    requires AllCarried(Step(s, Get(t)).threads, urb) + Carries(s.threads[t], urb)
          == AllCarried(s.threads, urb) + Carries(Step(s, Get(t)).threads[t], urb)
    ensures Places(Step(s, Get(t)), urb) == Places(s, urb)
  {
    hide AllCarried;
    if s.wait != [] {
      TakeFirst(s.wait, urb);
    }
  }

  lemma {:induction false} BackKeepsPlaces(s: State, e: Event, urb: Urb)
    requires (e.GiveBack? || e.CallbackDecrement?) && e.t < |s.threads|
    requires AllCarried(Step(s, e).threads, urb) + Carries(s.threads[e.t], urb)
          == AllCarried(s.threads, urb) + Carries(Step(s, e).threads[e.t], urb)
    ensures Places(Step(s, e), urb) == Places(s, urb) && Step(s, e).issued == s.issued
  {
    hide AllCarried;
  }

  lemma {:induction false} SendKeepsPlaces(s: State, t: nat, sent: Urb, urb: Urb)
    requires t < |s.threads| && Places(s, urb) == s.issued[urb]
    requires AllCarried(Step(s, Send(t, sent)).threads, urb) + Carries(s.threads[t], urb)
          == AllCarried(s.threads, urb) + Carries(Step(s, Send(t, sent)).threads[t], urb)
    ensures Places(Step(s, Send(t, sent)), urb) == Step(s, Send(t, sent)).issued[urb]
  {
    hide AllCarried;
    AddLast(s.wait, sent, urb);
  }

  lemma {:induction false} AddLast(wait: seq<Urb>, last: Urb, urb: Urb)
    ensures multiset(wait + [last])[urb] == multiset(wait)[urb] + if last == urb then 1 else 0
  {
  }

  lemma {:induction false} TakeFirst(wait: seq<Urb>, urb: Urb)
    requires wait != []
    ensures multiset(wait)[urb] == multiset(wait[1..])[urb] + if wait[0] == urb then 1 else 0
  {
    assert wait == [wait[0]] + wait[1..];
  }

  lemma {:induction false} IdleHasNothing(n: nat, urb: Urb)
    ensures var ts := seq(n, _ => Idle); Slots(ts) == 0 && AllCounted(ts) == 0 && AllCarried(ts, urb) == 0
    decreases n
  {
    var ts := seq(n, _ => Idle);
    if n > 0 {
      IdleHasNothing(n - 1, urb);
      assert ts[1..] == seq(n - 1, _ => Idle);
    }
  }

  /** In every interleaving of any number of processors at most eight URBs are with the hardware, and each
      URB is in exactly as many places as it was issued times. */
  lemma {:induction false} AtMostEight(processors: nat, es: seq<Event>, urb: Urb)
    ensures var s := Run(Start(processors), es);
            && Bounded(s)
            && |s.submitted| <= 8
            && Places(s, urb) == s.issued[urb]
  {
    hide Bounded, Places, Step;
    if es == [] {
      StartBounded(processors, urb);
    } else {
      var before := es[..|es| - 1];
      AtMostEight(processors, before, urb);
      StepBounded(Run(Start(processors), before), es[|es| - 1]);
      StepKeepsPlaces(Run(Start(processors), before), es[|es| - 1], urb);
    }
    BoundedMeans(Run(Start(processors), es));
  }

  lemma {:induction false} StartBounded(processors: nat, urb: Urb)
    ensures Bounded(Start(processors)) && Places(Start(processors), urb) == 0
  {
    IdleHasNothing(processors, urb);
  }

  lemma {:induction false} BoundedMeans(s: State)
    requires Bounded(s)
    ensures |s.submitted| <= MAX_TX_URBS
  {
  }

  // ---------------------------------------------------------------------------------------------
  // In which order

  /** The URB that an action makes wait, and the one that it puts into a processor's hands. */
  function Queues(s: State, e: Event): seq<Urb> {
    if e.Send? && e.t < |s.threads| && s.threads[e.t].Idle? then [e.urb] else []
  }

  function Hands(s: State, e: Event): seq<Urb> {
    var ts := Step(s, e).threads;
    if e.t < |s.threads| && e.t < |ts| && ts[e.t].Holding? && !s.threads[e.t].Holding? then [ts[e.t].urb] else []
  }

  function QueuedIn(s: State, es: seq<Event>): seq<Urb> {
    if es == [] then [] else QueuedIn(s, es[..|es| - 1]) + Queues(Run(s, es[..|es| - 1]), es[|es| - 1])
  }

  function HandedOut(s: State, es: seq<Event>): seq<Urb> {
    if es == [] then [] else HandedOut(s, es[..|es| - 1]) + Hands(Run(s, es[..|es| - 1]), es[|es| - 1])
  }

  lemma {:induction false} StepInOrder(s: State, e: Event)
    ensures s.wait + Queues(s, e) == Hands(s, e) + Step(s, e).wait
  {
    if e.Get? && s.wait != [] {
      assert s.wait == [s.wait[0]] + s.wait[1..];
    }
  }

  /** In every interleaving URBs leave the waiting list in the order in which they came onto it. */
  lemma {:induction false} FirstComeFirstServed(s: State, es: seq<Event>)
    ensures s.wait + QueuedIn(s, es) == HandedOut(s, es) + Run(s, es).wait
    decreases |es|
  {
    hide Step, Queues, Hands;
    if es != [] {
      var before, e := es[..|es| - 1], es[|es| - 1];
      var u := Run(s, before);
      FirstComeFirstServed(s, before);
      StepInOrder(u, e);
      assert s.wait + QueuedIn(s, es) == (s.wait + QueuedIn(s, before)) + Queues(u, e);
      assert HandedOut(s, before) + (Hands(u, e) + Step(u, e).wait) == HandedOut(s, es) + Run(s, es).wait;
    }
  }

  // ---------------------------------------------------------------------------------------------
  // Who waits in vain

  /** About to count itself in, or counted in and about to look for a waiting URB. */
  function Starts(ts: seq<Thread>): nat {
    if ts == [] then 0 else Starts(ts[1..]) + if ts[0].Starting? then 1 else 0
  }

  function Admits(ts: seq<Thread>): nat {
    if ts == [] then 0 else Admits(ts[1..]) + if ts[0].Admitted? then 1 else 0
  }

  lemma {:induction false} ReplaceStarts(ts: seq<Thread>, i: nat, x: Thread)
    requires i < |ts|
    ensures Starts(ts[i := x]) + (if ts[i].Starting? then 1 else 0) == Starts(ts) + if x.Starting? then 1 else 0
    ensures Admits(ts[i := x]) + (if ts[i].Admitted? then 1 else 0) == Admits(ts) + if x.Admitted? then 1 else 0
  {
    if i == 0 {
      assert ts[0 := x][1..] == ts[1..];
    } else {
      ReplaceStarts(ts[1..], i - 1, x);
      assert ts[i := x][1..] == ts[1..][i - 1 := x];
    }
  }

  /** Processors that may still come for a waiting URB. */
  function Comers(s: State): nat {
    Starts(s.threads) + Admits(s.threads)
  }

  /** Places taken, and those that a processor about to count itself in may take. */
  function Claims(s: State): nat {
    Slots(s.threads) + |s.submitted| + Starts(s.threads)
  }

  /** Nobody waits in vain: for every waiting URB a processor is on its way, or all eight places are
      taken or spoken for, so that a completion is still to come. */
  predicate Covered(s: State) {
    |s.wait| <= Comers(s) || Claims(s) >= MAX_TX_URBS
  }

  /** The two actions that can strand a URB: a processor finds the counter too high and turns away, or a
      submit fails and its place is given up, while more URBs wait than processors are left to come
      and not all places are taken. */
  predicate Loses(s: State, e: Event) {
    && e.t < |s.threads|
    && ((e.Increment? && s.threads[e.t].Starting? && s.pending + 1 > MAX_TX_URBS
         && |s.wait| > Comers(s) - 1 && Claims(s) - 1 < MAX_TX_URBS)
        || (e.Submit? && s.threads[e.t].Holding? && !e.ok
            && |s.wait| > Comers(s) && Claims(s) - 1 < MAX_TX_URBS))
  }

  /** An action leaves somebody waiting in vain exactly when it is one of those two at such a moment. */
  lemma {:induction false} StepCovered(s: State, e: Event)
    requires Bounded(s) && Covered(s)
    ensures Covered(Step(s, e)) <==> !Loses(s, e)
  {
    hide Slots, AllCounted, Starts, Admits;
    if e.t < |s.threads| {
      Replace(s.threads, e.t, Step(s, e).threads[e.t]);
      ReplaceStarts(s.threads, e.t, Step(s, e).threads[e.t]);
    }
  }

  ghost predicate AllIdle(s: State) {
    forall t :: 0 <= t < |s.threads| ==> s.threads[t] == Idle
  }

  lemma {:induction false} IdleDoesNothing(ts: seq<Thread>)
    requires forall t :: 0 <= t < |ts| ==> ts[t] == Idle
    ensures Slots(ts) == 0 && AllCounted(ts) == 0 && Starts(ts) == 0 && Admits(ts) == 0
  {
    if ts != [] {
      IdleDoesNothing(ts[1..]);
    }
  }

  /** At rest, being covered says what the throttle is for: URBs wait only while eight are outstanding. */
  lemma {:induction false} CoveredAtRest(s: State)
    requires Bounded(s) && AllIdle(s)
    ensures s.pending == |s.submitted| <= 8
    ensures Covered(s) <==> s.wait == [] || |s.submitted| == 8
  {
    IdleDoesNothing(s.threads);
  }

  lemma {:induction false} StartCovered(processors: nat)
    ensures Bounded(Start(processors)) && Covered(Start(processors))
  {
    StartBounded(processors, 0);
  }

  ghost predicate AlwaysCovered(s: State, es: seq<Event>) {
    forall n :: 0 <= n <= |es| ==> Covered(Run(s, es[..n]))
  }

  ghost predicate NeverLoses(s: State, es: seq<Event>) {
    forall n :: 0 <= n < |es| ==> !Loses(Run(s, es[..n]), es[n])
  }

  lemma {:induction false} AlwaysAndNever(s: State, es: seq<Event>)
    requires es != []
    ensures var k := |es| - 1;
            && (AlwaysCovered(s, es) <==> AlwaysCovered(s, es[..k]) && Covered(Run(s, es)))
            && (NeverLoses(s, es) <==> NeverLoses(s, es[..k]) && !Loses(Run(s, es[..k]), es[k]))
  {
    hide Covered, Loses, Run;
    var k := |es| - 1;
    forall n | 0 <= n <= k
      ensures es[..k][..n] == es[..n]
    {
    }
    assert es[..|es|] == es;
  }

  /** Over every interleaving: nobody ever waits in vain exactly when no action of the run is a losing one. */
  lemma {:induction false} RunCoveredExactly(processors: nat, es: seq<Event>)
    ensures AlwaysCovered(Start(processors), es) <==> NeverLoses(Start(processors), es)
    decreases |es|
  {
    hide Covered, Loses, Step, Bounded;
    var s0 := Start(processors);
    StartCovered(processors);
    if es == [] {
      assert forall n :: 0 <= n <= |es| ==> es[..n] == [];
    } else {
      var before, e := es[..|es| - 1], es[|es| - 1];
      RunCoveredExactly(processors, before);
      AlwaysAndNever(s0, es);
      AtMostEight(processors, before, 0);
      if AlwaysCovered(s0, before) {
        assert before[..|before|] == before;
        assert Covered(Run(s0, before[..|before|]));
        StepCovered(Run(s0, before), e);
      }
    }
  }

  /** An increment is refused only while eight hold a place, and no submit fails. */
  predicate Careful(s: State, e: Event) {
    e.t < |s.threads| ==>
      && (e.Increment? && s.threads[e.t].Starting? && s.pending + 1 > MAX_TX_URBS ==>
            Slots(s.threads) + |s.submitted| == MAX_TX_URBS)
      && (e.Submit? && s.threads[e.t].Holding? ==> e.ok)
  }

  lemma {:induction false} CarefulLosesNothing(s: State, e: Event)
    requires Careful(s, e)
    ensures !Loses(s, e)
  {
    hide Slots, Starts, Admits;
    if e.t < |s.threads| && s.threads[e.t].Starting? {
      SomeStarts(s.threads, e.t);
    }
  }

  lemma {:induction false} SomeStarts(ts: seq<Thread>, t: nat)
    requires t < |ts| && ts[t].Starting?
    ensures Starts(ts) > 0
  {
    if t > 0 {
      SomeStarts(ts[1..], t - 1);
    }
  }

  /** Over every interleaving of careful actions URBs wait, at rest, only while eight are outstanding. */
  lemma {:induction false} CarefulRunsCover(processors: nat, es: seq<Event>)
    requires forall n :: 0 <= n < |es| ==> Careful(Run(Start(processors), es[..n]), es[n])
    ensures var s := Run(Start(processors), es);
            && Bounded(s) && Covered(s)
            && (AllIdle(s) ==> s.wait == [] || |s.submitted| == 8)
  {
    hide Covered, Loses, Careful, Step, Bounded, AllIdle;
    var s0 := Start(processors);
    forall n | 0 <= n < |es|
      ensures !Loses(Run(s0, es[..n]), es[n])
    {
      CarefulLosesNothing(Run(s0, es[..n]), es[n]);
    }
    RunCoveredExactly(processors, es);
    assert NeverLoses(s0, es);
    AtMostEight(processors, es, 0);
    assert es[..|es|] == es;
    assert Covered(Run(s0, es[..|es|]));
    if AllIdle(Run(s0, es)) {
      CoveredAtRest(Run(s0, es));
    }
  }

  // ---------------------------------------------------------------------------------------------
  // Without overlap

  /** `r92su_tx_schedule` in one go. */
  function Scheduled(s: State, ok: bool): State {
    if s.pending + 1 > MAX_TX_URBS || s.wait == [] then s
    else if !ok then s.(wait := s.wait[1..], failed := s.failed + multiset{s.wait[0]})
    else s.(pending := s.pending + 1, wait := s.wait[1..], submitted := s.submitted + multiset{s.wait[0]})
  }

  /** `r92su_usb_tx` in one go. */
  function Sent(s: State, urb: Urb, ok: bool): State {
    Scheduled(s.(wait := s.wait + [urb], issued := s.issued + multiset{urb}), ok)
  }

  /** `r92su_tx_usb_cb` in one go. */
  function GivenBack(s: State, urb: Urb, ok: bool): State {
    if urb !in s.submitted then s
    else Scheduled(s.(pending := s.pending - 1, submitted := s.submitted - multiset{urb}, finished := s.finished + multiset{urb}), ok)
  }

  function ScheduleSteps(t: nat, ok: bool): seq<Event> {
    [Increment(t), Get(t), Submit(t, ok), Decrement(t)]
  }

  function SendSteps(t: nat, urb: Urb, ok: bool): seq<Event> {
    [Send(t, urb)] + ScheduleSteps(t, ok)
  }

  function GiveBackSteps(t: nat, urb: Urb, ok: bool): seq<Event> {
    [GiveBack(t, urb), CallbackDecrement(t)] + ScheduleSteps(t, ok)
  }

  lemma {:induction false} RunStep(s: State, es: seq<Event>, e: Event)
    ensures Run(s, es + [e]) == Step(Run(s, es), e)
  {
    assert (es + [e])[..|es|] == es;
  }

  lemma {:induction false} RunAppend(s: State, a: seq<Event>, b: seq<Event>)
    ensures Run(s, a + b) == Run(Run(s, a), b)
    decreases |b|
  {
    hide Step;
    if b == [] {
      assert a + b == a;
    } else {
      var init, e := b[..|b| - 1], b[|b| - 1];
      RunAppend(s, a, init);
      assert a + b == (a + init) + [e];
      RunStep(s, a + init, e);
    }
  }

  lemma {:induction false} RunOne(s: State, e: Event)
    ensures Run(s, [e]) == Step(s, e)
  {
    hide Step;
    assert [e][..0] == [];
  }

  lemma {:induction false} RunTwo(s: State, e: Event, f: Event)
    ensures Run(s, [e, f]) == Step(Step(s, e), f)
  {
    hide Step;
    assert [e, f] == [e] + [f];
    RunStep(s, [e], f);
    RunOne(s, e);
  }

  lemma {:induction false} ScheduleRuns(s: State, t: nat, ok: bool)
    requires t < |s.threads| && s.threads[t] == Starting
    ensures Run(s, ScheduleSteps(t, ok)) == Goto(Scheduled(s, ok), t, Idle)
  {
    hide Run;
    assert ScheduleSteps(t, ok) == [Increment(t), Get(t)] + [Submit(t, ok), Decrement(t)];
    RunAppend(s, [Increment(t), Get(t)], [Submit(t, ok), Decrement(t)]);
    RunTwo(s, Increment(t), Get(t));
    var u := Step(Step(s, Increment(t)), Get(t));
    RunTwo(u, Submit(t, ok), Decrement(t));
    ScheduleStepsDo(s, t, ok);
  }

  lemma {:induction false} ScheduleStepsDo(s: State, t: nat, ok: bool)
    requires t < |s.threads| && s.threads[t] == Starting
    ensures Step(Step(Step(Step(s, Increment(t)), Get(t)), Submit(t, ok)), Decrement(t)) == Goto(Scheduled(s, ok), t, Idle)
  {
    hide Step;
    var b := Step(Step(s, Increment(t)), Get(t));
    IncrementAndGet(s, t);
    SubmitAndDecrement(b, t, ok);
    SameThreads(s, t, b.threads[t], Idle);
  }

  lemma {:induction false} IncrementAndGet(s: State, t: nat)
    requires t < |s.threads| && s.threads[t] == Starting
    ensures Step(Step(s, Increment(t)), Get(t))
         == if s.pending + 1 > MAX_TX_URBS || s.wait == [] then Goto(s.(pending := s.pending + 1), t, Retreating)
            else Goto(s.(pending := s.pending + 1, wait := s.wait[1..]), t, Holding(s.wait[0]))
  {
    var a := Step(s, Increment(t));
    SameThreads(s, t, a.threads[t], Step(a, Get(t)).threads[t]);
  }

  lemma {:induction false} SubmitAndDecrement(s: State, t: nat, ok: bool)
    requires t < |s.threads| && (s.threads[t].Holding? || s.threads[t] == Retreating)
    ensures Step(Step(s, Submit(t, ok)), Decrement(t))
         == if s.threads[t].Holding? && ok then Goto(s.(submitted := s.submitted + multiset{s.threads[t].urb}), t, Idle)
            else if s.threads[t].Holding? then Goto(s.(pending := s.pending - 1, failed := s.failed + multiset{s.threads[t].urb}), t, Idle)
            else Goto(s.(pending := s.pending - 1), t, Idle)
  {
    var a := Step(s, Submit(t, ok));
    SameThreads(s, t, a.threads[t], Idle);
  }

  lemma {:induction false} SameThreads(s: State, t: nat, x: Thread, y: Thread)
    requires t < |s.threads|
    ensures s.threads[t := x][t := y] == s.threads[t := y]
  {
  }

  lemma {:induction false} PutAndTaken(m: multiset<Urb>, urb: Urb)
    ensures m + multiset{urb} - multiset{urb} == m
  {
  }

  datatype Status = Success | Invalid | NoMemory

  /** `struct r92su`, as far as transmission goes, between two calls. */
  class Usb {
    var pending: int
    var wait: seq<Urb>
    var submitted: multiset<Urb>
    ghost var issued: multiset<Urb>
    var finished: multiset<Urb>
    var failed: multiset<Urb>

    constructor ()
      ensures Value() == Start(0)
    {
      pending := 0;
      wait := [];
      submitted := multiset{};
      issued := multiset{};
      finished := multiset{};
      failed := multiset{};
    }

    ghost function Value(): State
      reads this
    {
      State(pending, wait, submitted, [], issued, finished, failed)
    }

    /** `r92su_tx_schedule`; `ok` says whether the submit works. */
    method TxSchedule(ok: bool)
      modifies this
      ensures Value() == Scheduled(old(Value()), ok)
    {
      pending := pending + 1;
      if pending <= MAX_TX_URBS && wait != [] {
        var urb := wait[0];
        wait := wait[1..];
        submitted := submitted + multiset{urb};
        if ok {
          assert Value() == Scheduled(old(Value()), true);
          return;
        }
        PutAndTaken(old(submitted), urb);
        submitted := submitted - multiset{urb};
        failed := failed + multiset{urb};
      }
      pending := pending - 1;
    }

    /** `r92su_usb_tx`; `probing` says whether the device is up, `memory` whether a URB can be had for it.
        Only a refused frame leaves everything alone: a submit that fails later is not reported. */
    method UsbTx(urb: Urb, probing: bool, memory: bool, ok: bool) returns (status: Status)
      modifies this
      ensures status == if !probing then Invalid else if !memory then NoMemory else Success
      ensures Value() == if status == Success then Sent(old(Value()), urb, ok) else old(Value())
    {
      hide Scheduled;
      if !probing {
        return Invalid;
      }
      if !memory {
        return NoMemory;
      }
      status := Success;
      wait := wait + [urb];
      issued := issued + multiset{urb};
      TxSchedule(ok);
    }

    /** `r92su_tx_usb_cb`, after the core has taken the URB off the list of submitted ones */
    method TxUsbCb(urb: Urb, ok: bool)
      requires urb in submitted
      modifies this
      ensures Value() == GivenBack(old(Value()), urb, ok)
    {
      hide Scheduled;
      submitted := submitted - multiset{urb};
      pending := pending - 1;
      finished := finished + multiset{urb};
      TxSchedule(ok);
    }
  }

  /** Run without anyone in between, the steps of a sender amount to this. */
  lemma {:induction false} SendRuns(s: State, t: nat, urb: Urb, ok: bool)
    requires t < |s.threads| && s.threads[t] == Idle
    ensures Run(s, SendSteps(t, urb, ok)) == Sent(s, urb, ok)
  {
    hide Run;
    RunAppend(s, [Send(t, urb)], ScheduleSteps(t, ok));
    RunOne(s, Send(t, urb));
    var u := Step(s, Send(t, urb));
    ScheduleRuns(u, t, ok);
    assert s.threads[t := Starting][t := Idle] == s.threads;
  }

  lemma {:induction false} GiveBackRuns(s: State, t: nat, urb: Urb, ok: bool)
    requires t < |s.threads| && s.threads[t] == Idle && urb in s.submitted
    ensures Run(s, GiveBackSteps(t, urb, ok)) == GivenBack(s, urb, ok)
  {
    hide Run;
    RunAppend(s, [GiveBack(t, urb), CallbackDecrement(t)], ScheduleSteps(t, ok));
    RunTwo(s, GiveBack(t, urb), CallbackDecrement(t));
    var u := Step(Step(s, GiveBack(t, urb)), CallbackDecrement(t));
    GiveBackStarts(s, t, urb);
    hide Step;
    ScheduleRuns(u, t, ok);
    SameThreads(s, t, Starting, Idle);
    BackToIdle(s, t);
  }

  lemma {:induction false} BackToIdle(s: State, t: nat)
    requires t < |s.threads| && s.threads[t] == Idle
    ensures s.threads[t := Idle] == s.threads
  {
  }

  lemma {:induction false} GiveBackStarts(s: State, t: nat, urb: Urb)
    requires t < |s.threads| && s.threads[t] == Idle && urb in s.submitted
    ensures Step(Step(s, GiveBack(t, urb)), CallbackDecrement(t))
         == s.(pending := s.pending - 1, submitted := s.submitted - multiset{urb}, finished := s.finished + multiset{urb},
               threads := s.threads[t := Starting])
  {
    var a := Step(s, GiveBack(t, urb));
    assert a.threads[t] == Called(urb);
    SameThreads(s, t, Called(urb), Starting);
  }

  /** Nobody is inside the throttle, and URBs wait only while eight are outstanding. */
  ghost predicate Settled(s: State) {
    && AllIdle(s)
    && s.pending == |s.submitted| <= MAX_TX_URBS
    && (s.wait != [] ==> |s.submitted| == MAX_TX_URBS)
  }

  /** One sender or completion handler after the other. */
  datatype Call = SendCall(t: nat, urb: Urb) | GiveBackCall(t: nat, urb: Urb)

  function Steps(c: Call): seq<Event> {
    match c
    case SendCall(t, urb) => SendSteps(t, urb, true)
    case GiveBackCall(t, urb) => GiveBackSteps(t, urb, true)
  }

  function AllSteps(cs: seq<Call>): seq<Event> {
    if cs == [] then [] else AllSteps(cs[..|cs| - 1]) + Steps(cs[|cs| - 1])
  }

  lemma {:induction false} CallSettles(s: State, c: Call)
    requires Settled(s) && c.t < |s.threads| && (c.GiveBackCall? ==> c.urb in s.submitted)
    ensures Settled(Run(s, Steps(c))) && |Run(s, Steps(c)).threads| == |s.threads|
    ensures c.GiveBackCall? && s.wait != [] ==> |Run(s, Steps(c)).submitted| == MAX_TX_URBS
  {
    hide Run;
    match c
    case SendCall(t, urb) => SendRuns(s, t, urb, true);
    case GiveBackCall(t, urb) => GiveBackRuns(s, t, urb, true);
  }

  /** Completions are of URBs that are with the hardware. */
  ghost predicate Proper(processors: nat, cs: seq<Call>) {
    cs != [] ==>
      var before, c := cs[..|cs| - 1], cs[|cs| - 1];
      && Proper(processors, before)
      && c.t < processors
      && (c.GiveBackCall? ==> c.urb in Run(Start(processors), AllSteps(before)).submitted)
  }

  /** When calls do not overlap and every submit works, URBs wait only while eight are outstanding. */
  lemma {:induction false} NoneWaitsInVain(processors: nat, cs: seq<Call>)
    requires Proper(processors, cs)
    ensures Settled(Run(Start(processors), AllSteps(cs))) && |Run(Start(processors), AllSteps(cs)).threads| == processors
  {
    hide Run, Settled, Steps;
    var s0 := Start(processors);
    if cs == [] {
      StartSettled(processors);
    } else {
      var before, c := cs[..|cs| - 1], cs[|cs| - 1];
      NoneWaitsInVain(processors, before);
      RunAppend(s0, AllSteps(before), Steps(c));
      CallSettles(Run(s0, AllSteps(before)), c);
    }
  }

  lemma {:induction false} StartSettled(processors: nat)
    ensures Run(Start(processors), []) == Start(processors) && Settled(Start(processors))
    ensures |Start(processors).threads| == processors
  {
  }

  // ---------------------------------------------------------------------------------------------
  // With overlap

  function Sends(n: nat): seq<Call> {
    if n == 0 then [] else Sends(n - 1) + [SendCall(0, n - 1)]
  }

  /** Each of the first eight URBs goes straight out. */
  lemma {:induction false} SendsGoOut(processors: nat, n: nat)
    requires processors > 0 && n <= MAX_TX_URBS
    ensures var s := Run(Start(processors), AllSteps(Sends(n)));
            && |Sends(n)| == n && Proper(processors, Sends(n)) && Settled(s) && |s.threads| == processors
            && s.wait == [] && |s.submitted| == n && (n > 0 ==> n - 1 in s.submitted)
  {
    hide Run, Settled, Steps;
    var s0 := Start(processors);
    if n == 0 {
      StartSettled(processors);
    } else {
      SendsGoOut(processors, n - 1);
      var before, c := Sends(n - 1), SendCall(0, n - 1);
      assert Sends(n)[..n - 1] == before;
      RunAppend(s0, AllSteps(before), Steps(c));
      var s := Run(s0, AllSteps(before));
      CallSettles(s, c);
      GoesOut(s, n - 1);
    }
  }

  lemma {:induction false} GoesOut(s: State, urb: Urb)
    requires Settled(s) && s.wait == [] && |s.submitted| < MAX_TX_URBS && |s.threads| > 0
    ensures var s' := Run(s, Steps(SendCall(0, urb)));
            s'.wait == [] && s'.submitted == s.submitted + multiset{urb}
  {
    hide Run;
    SendRuns(s, 0, urb, true);
  }

  /** A sender finds eight outstanding and is about to withdraw its count; a completion handler counts
      itself on top of that, and gives up as well. */
  function Overlap(urb: Urb, back: Urb): seq<Event> {
    [Send(0, urb), Increment(0)] + [GiveBack(1, back), CallbackDecrement(1)] + [Increment(1), Decrement(1)] + [Decrement(0)]
  }

  lemma {:induction false} OverlapStalls(s: State, urb: Urb, back: Urb)
    requires Settled(s) && s.wait == [] && |s.submitted| == MAX_TX_URBS && |s.threads| >= 2 && back in s.submitted
    ensures var s' := Run(s, Overlap(urb, back));
            && s'.wait == [urb] && |s'.submitted| == MAX_TX_URBS - 1 && s'.pending == MAX_TX_URBS - 1
            && AllIdle(s')
  {
    hide Run, Step;
    OverlapRuns(s, urb, back);
    var s1 := Step(Step(s, Send(0, urb)), Increment(0));
    SenderRetreats(s, urb);
    var s2 := Step(Step(s1, GiveBack(1, back)), CallbackDecrement(1));
    GiveBackStarts(s1, 1, back);
    var s3 := Step(Step(s2, Increment(1)), Decrement(1));
    HandlerRetreats(s2);
    SenderLeaves(s3);
    assert s.threads[0 := Retreating][1 := Starting][1 := Idle][0 := Idle] == s.threads;
  }

  lemma {:induction false} OverlapRuns(s: State, urb: Urb, back: Urb)
    ensures var s1 := Step(Step(s, Send(0, urb)), Increment(0));
            var s2 := Step(Step(s1, GiveBack(1, back)), CallbackDecrement(1));
            var s3 := Step(Step(s2, Increment(1)), Decrement(1));
            Run(s, Overlap(urb, back)) == Step(s3, Decrement(0))
  {
    hide Run, Step;
    var a, b, c, d := [Send(0, urb), Increment(0)], [GiveBack(1, back), CallbackDecrement(1)], [Increment(1), Decrement(1)], [Decrement(0)];
    RunAppend(s, a + b + c, d);
    RunAppend(s, a + b, c);
    RunAppend(s, a, b);
    RunTwo(s, a[0], a[1]);
    RunTwo(Run(s, a), b[0], b[1]);
    RunTwo(Run(Run(s, a), b), c[0], c[1]);
    RunOne(Run(Run(Run(s, a), b), c), d[0]);
  }

  lemma {:induction false} SenderRetreats(s: State, urb: Urb)
    requires |s.threads| >= 2 && s.threads[0] == Idle && s.pending == MAX_TX_URBS
    ensures Step(Step(s, Send(0, urb)), Increment(0))
         == s.(pending := MAX_TX_URBS + 1, wait := s.wait + [urb], issued := s.issued + multiset{urb}, threads := s.threads[0 := Retreating])
  {
    SameThreads(s, 0, Starting, Retreating);
  }

  lemma {:induction false} HandlerRetreats(s: State)
    requires |s.threads| >= 2 && s.threads[1] == Starting && s.pending == MAX_TX_URBS
    ensures Step(Step(s, Increment(1)), Decrement(1)) == s.(threads := s.threads[1 := Idle])
  {
    SameThreads(s, 1, Retreating, Idle);
  }

  lemma {:induction false} SenderLeaves(s: State)
    requires |s.threads| >= 2 && s.threads[0] == Retreating
    ensures Step(s, Decrement(0)) == s.(pending := s.pending - 1, threads := s.threads[0 := Idle])
  {
  }

  /** With overlap a URB can be left waiting while the hardware has room and nobody is about to send it. */
  lemma {:induction false} WakeupLost(processors: nat)
    requires processors >= 2
    ensures var s := Run(Start(processors), AllSteps(Sends(MAX_TX_URBS)) + Overlap(8, 7));
            && s.wait == [8] && |s.submitted| == 7
            && AllIdle(s)
  {
    hide Run, AllSteps, Sends, Overlap;
    SendsGoOut(processors, MAX_TX_URBS);
    RunAppend(Start(processors), AllSteps(Sends(MAX_TX_URBS)), Overlap(8, 7));
    OverlapStalls(Run(Start(processors), AllSteps(Sends(MAX_TX_URBS))), 8, 7);
  }
}
