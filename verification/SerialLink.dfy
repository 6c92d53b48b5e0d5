// The transfer over the interrupt-driven queue itself: binsend and receive_into with every step of
// usart_getbyte and the interrupt handler in between, down to the check for an empty queue and the
// sleep that follows it. No other interrupt wakes the receiver. The first serial port never asks for
// the debugger, so that its handler takes Ctrl-C as any other byte.

module SerialLink {
  import opened Bytes
  import opened IntQueue
  import Interrupts
  import Transfer

  /** Both ends and the line, whose own queue stays empty, and the receiving driver. */
  datatype Link = Link(ends: Transfer.System, usart: Interrupts.System)

  datatype Event = Write | Arrive | Read | Acknowledge | ReadAck

  function Idle(buffer: seq<Byte>): Link {
    Link(Transfer.Idle(), Interrupts.Fresh(buffer, false))
  }

  /** An interrupt in the critical section stays pending, and a sleeping usart_getbyte waits for one. */
  predicate Enabled(data: seq<Byte>, l: Link, e: Event) {
    match e
    case Write => Transfer.Enabled(data, l.ends, Transfer.Write)
    case Arrive => Transfer.Enabled(data, l.ends, Transfer.Arrive) && !l.usart.masked
    case Read =>
      !l.ends.owesAck && Transfer.Wants(l.ends.stored) && !l.usart.place.Asleep?
    case Acknowledge => Transfer.Enabled(data, l.ends, Transfer.Acknowledge)
    case ReadAck => Transfer.Enabled(data, l.ends, Transfer.ReadAck)
  }

  function Step(data: seq<Byte>, l: Link, e: Event): Link
    requires Interrupts.Wellformed(l.usart) && Enabled(data, l, e)
  {
    match e
    case Write => l.(ends := Transfer.Step(data, l.ends, Transfer.Write))
    case Arrive => Link(l.ends.(line := l.ends.line[1..]), Interrupts.Interrupted(l.usart, l.ends.line[0]))
    case Read =>
      Link(if l.usart.place.Return? then l.ends.(stored := l.ends.stored + [l.usart.b], owesAck := true) else l.ends,
           Interrupts.Advance(l.usart))
    case Acknowledge => l.(ends := Transfer.Step(data, l.ends, Transfer.Acknowledge))
    case ReadAck => l.(ends := Transfer.Step(data, l.ends, Transfer.ReadAck))
  }

  // ---- Refinement

  /** What has arrived and not been returned yet. */
  function Queue(u: Interrupts.System): seq<Byte>
    requires Interrupts.Inv(u)
  {
    Interrupts.InHand(u) + FromRing(u.buffer, Interrupts.Front(u), Interrupts.Waiting(u))
  }

  /** The link with its ring seen as a queue. */
  function Abstract(l: Link): Transfer.System
    requires Interrupts.Inv(l.usart)
  {
    l.ends.(queue := Queue(l.usart), dropped := |l.usart.dropped|)
  }

  /** usart_getbyte has taken no byte and seen none. */
  predicate Waits(u: Interrupts.System) {
    u.place.CheckEmpty? || GoesToSleep(u)
  }

  predicate GoesToSleep(u: Interrupts.System) {
    u.place.BeforeSleep? || u.place.Asleep?
  }

  predicate Inv(data: seq<Byte>, l: Link) {
    match l
    case Link(ends, usart) =>
      && Interrupts.Inv(usart) && !usart.enableBreak
      && Transfer.Inv(data, Abstract(l))
      && (Transfer.Stage(Abstract(l)) != 2 ==> Waits(usart))
      && (GoesToSleep(usart) ==> !ends.owesAck && Transfer.Wants(ends.stored))
      && usart.delivered == ends.stored
  }

  /** Only the last step of usart_getbyte is seen in the transfer. */
  predicate Hidden(l: Link, e: Event) {
    e.Read? && !l.usart.place.Return?
  }

  function Seen(e: Event): Transfer.Event {
    match e
    case Write => Transfer.Write
    case Arrive => Transfer.Arrive
    case Read => Transfer.Take
    case Acknowledge => Transfer.Acknowledge
    case ReadAck => Transfer.ReadAck
  }

  /** How many steps usart_getbyte has taken since it last looked. */
  function PlaceOf(u: Interrupts.System): nat {
    match u.place
    case CheckEmpty => 0
    case BeforeSleep => 1
    case Asleep => 2
    case CheckAgain => 1
    case EnterCritical => 2
    case TakeByte => 3
    case WrapFront => 4
    case LoadLen => 5
    case StoreLen => 6
    case LeaveCritical => 7
    case Return => 8
  }

  /** How far a run has come, but for the sleeps: a byte takes 13 steps, nine of them in
      usart_getbyte. */
  function Progress(l: Link): nat
    requires Interrupts.Inv(l.usart)
  {
    var stage := Transfer.Stage(Abstract(l));
    13 * l.ends.sent + PlaceOf(l.usart) + if stage < 3 then stage else stage + 8
  }

  /** A byte that wakes the receiver takes two steps more. */
  predicate Wakes(l: Link, e: Event) {
    e.Arrive? && l.usart.place.Asleep?
  }

  /** The queue is what was accepted and not returned. */
  lemma QueueIs(u: Interrupts.System)
    requires Interrupts.Inv(u)
    ensures u.delivered <= u.accepted && Queue(u) == u.accepted[|u.delivered|..]
  {
    assert u.accepted == u.delivered + Queue(u);
  }

  lemma ArrivalQueued(u: Interrupts.System, b: Byte)
    requires Interrupts.Inv(u) && !u.masked && !u.enableBreak && Queue(u) == [] && Waits(u)
    ensures
      var w := Interrupts.Interrupted(u, b);
      && Interrupts.Inv(w) && Queue(w) == [b]
      && w.place == (if u.place.Asleep? then Interrupts.CheckEmpty else u.place)
      && !w.enableBreak && w.delivered == u.delivered && w.dropped == u.dropped
  {
    Interrupts.HandlerKeepsInv(u, b);
    QueueIs(u);
    QueueIs(Interrupts.Interrupted(u, b));
    assert |Queue(u)| == u.len;
  }

  lemma ReadingKeepsQueue(u: Interrupts.System)
    requires Interrupts.Inv(u) && !u.place.Return?
    ensures
      var w := Interrupts.Advance(u);
      Interrupts.Inv(w) && Queue(w) == Queue(u)
  {
    Interrupts.AdvanceKeepsInv(u);
    QueueIs(u);
    QueueIs(Interrupts.Advance(u));
  }

  lemma ReturnTakes(u: Interrupts.System)
    requires Interrupts.Inv(u) && u.place.Return?
    ensures
      var w := Interrupts.Advance(u);
      Interrupts.Inv(w) && Queue(u) == [u.b] + Queue(w)
  {
    Interrupts.AdvanceKeepsInv(u);
  }

  /** With a byte in the queue, reading goes on. */
  lemma ReadingPlace(u: Interrupts.System)
    requires Interrupts.Inv(u) && |Queue(u)| <= 1 && !u.place.Return? && !u.place.Asleep?
    ensures PlaceOf(Interrupts.Advance(u)) == PlaceOf(u) + 1
    ensures GoesToSleep(Interrupts.Advance(u)) <==> u.place.BeforeSleep? || (u.place.CheckEmpty? && Queue(u) == [])
    ensures Waits(u) && Queue(u) == [] ==> GoesToSleep(Interrupts.Advance(u))
  {
    if Waits(u) {
      assert |Queue(u)| == u.len;
    }
  }

  /** What a step to m is in the transfer. */
  predicate Refines(data: seq<Byte>, l: Link, e: Event, m: Link)
    requires Interrupts.Inv(l.usart)
  {
    && Inv(data, m) && Progress(m) + (if Wakes(l, e) then 2 else 0) == Progress(l) + 1
    && if Hidden(l, e) then Abstract(m) == Abstract(l) else Transfer.Leads(data, Abstract(l), Seen(e), Abstract(m))
  }

  /** Which way a byte goes through the transfer. */
  lemma StageSteps(data: seq<Byte>, s: Transfer.System, e: Transfer.Event)
    requires Transfer.Inv(data, s) && Transfer.Enabled(data, s, e)
    ensures
      var t := Transfer.Step(data, s, e);
      && Transfer.Inv(data, t)
      && t.sent == s.sent + (if e.ReadAck? then 1 else 0)
      && match e
         case Write => Transfer.Stage(s) == 0 && Transfer.Stage(t) == 1
         case Arrive => Transfer.Stage(s) == 1 && Transfer.Stage(t) == 2
         case Take => Transfer.Stage(s) == 2 && Transfer.Stage(t) == 3
         case Acknowledge => Transfer.Stage(s) == 3 && Transfer.Stage(t) == 4
         case ReadAck => Transfer.Stage(s) == 4 && Transfer.Stage(t) == 0
  {
    Transfer.StepKeepsInv(data, s, e);
  }

  lemma ArriveIsSeen(data: seq<Byte>, l: Link)
    requires Inv(data, l) && Enabled(data, l, Arrive)
    ensures Waits(l.usart) && Interrupts.Wellformed(l.usart)
    ensures
      var m := Step(data, l, Arrive);
      && Interrupts.Inv(m.usart) && m.usart.delivered == l.usart.delivered && !m.usart.enableBreak
      && m.usart.place == (if l.usart.place.Asleep? then Interrupts.CheckEmpty else l.usart.place)
      && Abstract(m) == Transfer.Step(data, Abstract(l), Transfer.Arrive)
  {
    StageSteps(data, Abstract(l), Transfer.Arrive);
    ArrivalQueued(l.usart, l.ends.line[0]);
  }

  lemma ArriveKeepsInv(data: seq<Byte>, l: Link)
    requires Inv(data, l) && Enabled(data, l, Arrive)
    ensures Interrupts.Wellformed(l.usart) && Inv(data, Step(data, l, Arrive))
  {
    StageSteps(data, Abstract(l), Transfer.Arrive);
    ArriveIsSeen(data, l);
  }

  lemma ArriveProgress(data: seq<Byte>, l: Link)
    requires Inv(data, l) && Enabled(data, l, Arrive)
    ensures Interrupts.Wellformed(l.usart) && Interrupts.Inv(Step(data, l, Arrive).usart)
    ensures Progress(Step(data, l, Arrive)) + (if Wakes(l, Arrive) then 2 else 0) == Progress(l) + 1
    ensures Transfer.Leads(data, Abstract(l), Transfer.Arrive, Abstract(Step(data, l, Arrive)))
  {
    ArriveIsSeen(data, l);
    StageSteps(data, Abstract(l), Transfer.Arrive);
    MoreProgress(l, Step(data, l, Arrive));
  }

  lemma ArriveRefines(data: seq<Byte>, l: Link)
    requires Inv(data, l) && Enabled(data, l, Arrive)
    ensures Interrupts.Wellformed(l.usart) && Refines(data, l, Arrive, Step(data, l, Arrive))
  {
    ArriveKeepsInv(data, l);
    ArriveProgress(data, l);
  }

  /** The two steps of a sleep are given back. */
  lemma MoreProgress(l: Link, m: Link)
    requires Interrupts.Inv(l.usart) && Interrupts.Inv(m.usart) && Waits(l.usart)
    requires Transfer.Stage(Abstract(l)) == 1 && Transfer.Stage(Abstract(m)) == 2 && m.ends.sent == l.ends.sent
    requires m.usart.place == if l.usart.place.Asleep? then Interrupts.CheckEmpty else l.usart.place
    ensures Progress(m) + (if Wakes(l, Arrive) then 2 else 0) == Progress(l) + 1
  {
  }

  lemma ReturnRefines(data: seq<Byte>, l: Link)
    requires Inv(data, l) && Enabled(data, l, Read) && l.usart.place.Return?
    ensures Interrupts.Wellformed(l.usart) && Refines(data, l, Read, Step(data, l, Read))
  {
    ReturnTakes(l.usart);
    StageSteps(data, Abstract(l), Transfer.Take);
  }

  lemma HiddenRefines(data: seq<Byte>, l: Link)
    requires Inv(data, l) && Enabled(data, l, Read) && !l.usart.place.Return?
    ensures Interrupts.Wellformed(l.usart) && Refines(data, l, Read, Step(data, l, Read))
  {
    ReadingKeepsQueue(l.usart);
    ReadingPlace(l.usart);
  }

  lemma EndsRefine(data: seq<Byte>, l: Link, e: Event)
    requires Inv(data, l) && Enabled(data, l, e) && (e.Write? || e.Acknowledge? || e.ReadAck?)
    ensures Interrupts.Wellformed(l.usart) && Refines(data, l, e, Step(data, l, e))
  {
    match e
    case Write => StageSteps(data, Abstract(l), Transfer.Write);
    case Acknowledge => StageSteps(data, Abstract(l), Transfer.Acknowledge);
    case ReadAck => StageSteps(data, Abstract(l), Transfer.ReadAck);
  }

  /** Every step of the link is a step of the transfer or hidden from it. */
  lemma StepRefines(data: seq<Byte>, l: Link, e: Event)
    requires Inv(data, l) && Enabled(data, l, e)
    ensures Interrupts.Wellformed(l.usart) && Refines(data, l, e, Step(data, l, e))
  {
    match e
    case Arrive => ArriveRefines(data, l);
    case Read => if l.usart.place.Return? { ReturnRefines(data, l); } else { HiddenRefines(data, l); }
    case _ => EndsRefine(data, l, e);
  }

  // ---- Every run

  predicate Leads(data: seq<Byte>, l: Link, e: Event, m: Link) {
    Interrupts.Wellformed(l.usart) && Enabled(data, l, e) && m == Step(data, l, e)
  }

  predicate IsRun(data: seq<Byte>, states: seq<Link>, events: seq<Event>) {
    && |states| == |events| + 1
    && |states[0].usart.buffer| == BUFFER_SIZE && states[0] == Idle(states[0].usart.buffer)
    && forall i :: 0 <= i < |events| ==> Leads(data, states[i], events[i], states[i + 1])
  }

  lemma IdleInv(data: seq<Byte>, buffer: seq<Byte>)
    requires |buffer| == BUFFER_SIZE
    ensures Inv(data, Idle(buffer)) && Abstract(Idle(buffer)) == Transfer.Idle() && Progress(Idle(buffer)) == 0
  {
    Interrupts.FreshInv(buffer, false);
    assert Abstract(Idle(buffer)) == Transfer.Idle();
    Transfer.IdleInv(data);
  }

  lemma OneMore(data: seq<Byte>, states: seq<Transfer.System>, events: seq<Transfer.Event>, e: Transfer.Event,
                t: Transfer.System)
    requires Transfer.IsRun(data, states, events) && Transfer.Leads(data, states[|events|], e, t)
    ensures Transfer.IsRun(data, states + [t], events + [e])
  {
    var more, all := events + [e], states + [t];
    forall i | 0 <= i < |more| ensures Transfer.Leads(data, all[i], more[i], all[i + 1]) {
      if i < |events| {
        assert Transfer.Leads(data, states[i], events[i], states[i + 1]);
      }
    }
  }

  /** How often the receiver was woken. */
  function Sleeps(states: seq<Link>, events: seq<Event>, n: nat): nat
    requires n <= |events| < |states|
  {
    if n == 0 then 0
    else Sleeps(states, events, n - 1) + if Wakes(states[n - 1], events[n - 1]) then 1 else 0
  }

  /** How many bytes have arrived. */
  function Arrived(s: Transfer.System): nat {
    s.sent + if Transfer.Stage(s) >= 2 then 1 else 0
  }

  /** A run of n steps to l, in which the receiver was woken some times. */
  predicate Counted(l: Link, n: nat, sleeps: nat)
    requires Interrupts.Inv(l.usart)
  {
    n == Progress(l) + 2 * sleeps && sleeps <= Arrived(Abstract(l))
  }

  lemma StepCounted(data: seq<Byte>, l: Link, e: Event, m: Link, n: nat, sleeps: nat)
    requires Inv(data, l) && Leads(data, l, e, m) && Counted(l, n, sleeps)
    ensures Interrupts.Inv(m.usart) && Counted(m, n + 1, sleeps + if Wakes(l, e) then 1 else 0)
  {
    StepRefines(data, l, e);
    StepArrives(data, l, e, m);
  }

  lemma LeadsAt(data: seq<Byte>, states: seq<Link>, events: seq<Event>, n: nat)
    requires IsRun(data, states, events) && 0 < n <= |events|
    ensures Leads(data, states[n - 1], events[n - 1], states[n])
  {
  }

  lemma StepKeepsInv(data: seq<Byte>, l: Link, e: Event, m: Link)
    requires Inv(data, l) && Leads(data, l, e, m)
    ensures Inv(data, m)
  {
    StepRefines(data, l, e);
  }

  lemma {:induction false} RunKeepsInv(data: seq<Byte>, states: seq<Link>, events: seq<Event>, n: nat)
    requires IsRun(data, states, events) && n <= |events|
    ensures Inv(data, states[n])
  {
    if n == 0 {
      IdleInv(data, states[0].usart.buffer);
    } else {
      RunKeepsInv(data, states, events, n - 1);
      LeadsAt(data, states, events, n);
      StepKeepsInv(data, states[n - 1], events[n - 1], states[n]);
    }
  }

  lemma StepAt(
    data: seq<Byte>, states: seq<Link>, events: seq<Event>, n: nat, l: Link, e: Event, m: Link, sleeps: nat)
    requires IsRun(data, states, events) && 0 < n <= |events|
    requires l == states[n - 1] && e == events[n - 1] && m == states[n] && Inv(data, l) && Counted(l, n - 1, sleeps)
    ensures Interrupts.Inv(m.usart) && Counted(m, n, sleeps + if Wakes(l, e) then 1 else 0)
  {
    LeadsAt(data, states, events, n);
    StepCounted(data, l, e, m, n - 1, sleeps);
  }

  lemma BeforeLast(data: seq<Byte>, states: seq<Link>, events: seq<Event>, n: nat, l: Link)
    requires IsRun(data, states, events) && 0 < n <= |events| && l == states[n - 1]
    ensures Inv(data, l)
  {
    RunKeepsInv(data, states, events, n - 1);
  }

  lemma MoreCounted(
    data: seq<Byte>, states: seq<Link>, events: seq<Event>, n: nat, l: Link, e: Event, m: Link, sleeps: nat)
    requires IsRun(data, states, events) && 0 < n <= |events|
    requires l == states[n - 1] && e == events[n - 1] && m == states[n]
    requires Interrupts.Inv(l.usart) && Counted(l, n - 1, sleeps)
    ensures Interrupts.Inv(m.usart) && Counted(m, n, sleeps + if Wakes(l, e) then 1 else 0)
  {
    BeforeLast(data, states, events, n, l);
    StepAt(data, states, events, n, l, e, m, sleeps);
  }

  lemma NextCounted(data: seq<Byte>, states: seq<Link>, events: seq<Event>, n: nat, sleeps: nat)
    requires IsRun(data, states, events) && 0 < n <= |events|
    requires Interrupts.Inv(states[n - 1].usart) && Counted(states[n - 1], n - 1, sleeps)
    ensures Interrupts.Inv(states[n].usart)
    ensures Counted(states[n], n, sleeps + if Wakes(states[n - 1], events[n - 1]) then 1 else 0)
  {
    MoreCounted(data, states, events, n, states[n - 1], events[n - 1], states[n], sleeps);
  }

  /** Every step of a run counts. */
  lemma {:induction false} RunCounted(data: seq<Byte>, states: seq<Link>, events: seq<Event>, n: nat)
    requires IsRun(data, states, events) && n <= |events|
    ensures Interrupts.Inv(states[n].usart) && Counted(states[n], n, Sleeps(states, events, n))
  {
    if n == 0 {
      IdleInv(data, states[0].usart.buffer);
    } else {
      RunCounted(data, states, events, n - 1);
      NextCounted(data, states, events, n, Sleeps(states, events, n - 1));
    }
  }

  /** Up to any point, a run of the link is a run of the transfer. */
  lemma {:induction false} RunRefines(data: seq<Byte>, states: seq<Link>, events: seq<Event>, n: nat)
      returns (seen: seq<Transfer.System>, steps: seq<Transfer.Event>)
    requires IsRun(data, states, events) && n <= |events|
    ensures Inv(data, states[n])
    ensures Transfer.IsRun(data, seen, steps) && seen[|steps|] == Abstract(states[n])
  {
    if n == 0 {
      IdleInv(data, states[0].usart.buffer);
      seen, steps := [Transfer.Idle()], [];
    } else {
      seen, steps := RunRefines(data, states, events, n - 1);
      seen, steps := StepSeen(data, states[n - 1], events[n - 1], states[n], seen, steps);
    }
  }

  lemma StepSeen(data: seq<Byte>, l: Link, e: Event, m: Link, seen: seq<Transfer.System>, steps: seq<Transfer.Event>)
      returns (seen': seq<Transfer.System>, steps': seq<Transfer.Event>)
    requires Inv(data, l) && Leads(data, l, e, m)
    requires Transfer.IsRun(data, seen, steps) && seen[|steps|] == Abstract(l)
    ensures Inv(data, m)
    ensures Transfer.IsRun(data, seen', steps') && seen'[|steps'|] == Abstract(m)
  {
    StepRefines(data, l, e);
    seen', steps' := seen, steps;
    if !Hidden(l, e) {
      OneMore(data, seen, steps, Seen(e), Abstract(m));
      seen', steps' := seen + [Abstract(m)], steps + [Seen(e)];
    }
  }

  lemma SeenArrives(data: seq<Byte>, s: Transfer.System, a: Transfer.Event, t: Transfer.System)
    requires Transfer.Inv(data, s) && Transfer.Leads(data, s, a, t)
    ensures Arrived(t) == Arrived(s) + if a.Arrive? then 1 else 0
  {
    StageSteps(data, s, a);
  }

  lemma StepArrives(data: seq<Byte>, l: Link, e: Event, m: Link)
    requires Inv(data, l) && Refines(data, l, e, m)
    ensures Arrived(Abstract(m)) == Arrived(Abstract(l)) + if e.Arrive? then 1 else 0
  {
    if !Hidden(l, e) {
      SeenArrives(data, Abstract(l), Seen(e), Abstract(m));
    }
  }

  predicate Stuck(data: seq<Byte>, l: Link) {
    forall e :: !Enabled(data, l, e)
  }

  /** A run ends when everything is sent, or with the receiver asleep and a byte in its queue. */
  lemma StuckIff(file: seq<Byte>, l: Link)
    requires Transfer.Prepare(file).Sends? && Inv(Transfer.Prepare(file).data, l)
    ensures
      var data := Transfer.Prepare(file).data;
      Stuck(data, l) <==> l.ends.sent == |data| || (l.usart.place.Asleep? && l.usart.len != 0)
  {
    Transfer.WantsAll(file, l.ends.stored);
    if l.ends.sent == |Transfer.Prepare(file).data| || (l.usart.place.Asleep? && l.usart.len != 0) {
      WaitingLength(l.usart);
    } else {
      MovesOn(file, l);
    }
  }

  lemma MovesOn(file: seq<Byte>, l: Link)
    requires Transfer.Prepare(file).Sends? && Inv(Transfer.Prepare(file).data, l)
    requires l.ends.sent < |Transfer.Prepare(file).data| && !(l.usart.place.Asleep? && l.usart.len != 0)
    ensures !Stuck(Transfer.Prepare(file).data, l)
  {
    var data := Transfer.Prepare(file).data;
    Transfer.WantsAll(file, l.ends.stored);
    WaitingLength(l.usart);
    var e :=
      match Transfer.Stage(Abstract(l))
      case 0 => Write case 1 => Arrive case 2 => Read case 3 => Acknowledge case _ => ReadAck;
    assert Enabled(data, l, e);
  }

  lemma WaitingLength(u: Interrupts.System)
    requires Interrupts.Inv(u)
    ensures Waits(u) ==> u.len == |Queue(u)| && !u.masked
  {
  }

  // ---- The lost wake-up

  /** The byte arrives after the queue was seen empty and before the receiver is asleep. */
  predicate Unlucky(l: Link, e: Event) {
    e.Arrive? && l.usart.place.BeforeSleep?
  }

  lemma StepOversleeps(data: seq<Byte>, l: Link, e: Event)
    requires Inv(data, l) && Enabled(data, l, e)
    ensures Interrupts.Wellformed(l.usart)
    ensures Interrupts.Overslept(Step(data, l, e).usart) <==> Interrupts.Overslept(l.usart) || Unlucky(l, e)
  {
    WaitingLength(l.usart);
    match e
    case Arrive => Interrupts.StepOversleeps(l.usart, Interrupts.Receive(l.ends.line[0]));
    case Read => Interrupts.StepOversleeps(l.usart, Interrupts.Consumer);
    case _ =>
  }

  ghost predicate UnluckyBefore(states: seq<Link>, events: seq<Event>, n: nat)
    requires n <= |events| < |states|
  {
    exists i :: 0 <= i < n && Unlucky(states[i], events[i])
  }

  lemma OneMoreEvent(states: seq<Link>, events: seq<Event>, n: nat)
    requires 0 < n <= |events| < |states|
    ensures UnluckyBefore(states, events, n) <==>
      UnluckyBefore(states, events, n - 1) || Unlucky(states[n - 1], events[n - 1])
  {
  }

  lemma {:induction false} Oversleeps(data: seq<Byte>, states: seq<Link>, events: seq<Event>, n: nat)
    requires IsRun(data, states, events) && n <= |events|
    ensures Interrupts.Overslept(states[n].usart) <==> UnluckyBefore(states, events, n)
  {
    if n > 0 {
      Oversleeps(data, states, events, n - 1);
      RunKeepsInv(data, states, events, n - 1);
      OneMoreEvent(states, events, n);
      OversleptNext(data, states[n - 1], events[n - 1], states[n]);
    }
  }

  lemma OversleptNext(data: seq<Byte>, l: Link, e: Event, m: Link)
    requires Inv(data, l) && Leads(data, l, e, m)
    ensures Interrupts.Overslept(m.usart) <==> Interrupts.Overslept(l.usart) || Unlucky(l, e)
  {
    StepOversleeps(data, l, e);
  }

  /** For every file there is a run in which nothing is received: the first byte arrives between the
      check and the sleep. */
  lemma SleepsThrough(file: seq<Byte>, buffer: seq<Byte>) returns (states: seq<Link>, events: seq<Event>)
    requires Transfer.Prepare(file).Sends? && |buffer| == BUFFER_SIZE
    ensures IsRun(Transfer.Prepare(file).data, states, events) && events == [Read, Write, Arrive, Read]
    ensures Stuck(Transfer.Prepare(file).data, states[4]) && states[4].ends.stored == []
  {
    var data := Transfer.Prepare(file).data;
    var s0 := Idle(buffer);
    var s1 := Step(data, s0, Read);
    var s2 := Step(data, s1, Write);
    var s3 := Step(data, s2, Arrive);
    var s4 := Step(data, s3, Read);
    states, events := [s0, s1, s2, s3, s4], [Read, Write, Arrive, Read];
  }

  // ---- What a run comes to

  /** In every interleaving of sender, line, interrupt handler and usart_getbyte, no byte is dropped,
      and the run ends within fifteen steps for each byte: thirteen, and two more where the receiver
      slept. It ends with the file received if and only if no byte arrived between the check for an
      empty queue and the sleep. */
  lemma EveryRunDelivers(file: seq<Byte>, states: seq<Link>, events: seq<Event>)
    requires Transfer.Prepare(file).Sends? && IsRun(Transfer.Prepare(file).data, states, events)
    ensures
      var last := states[|events|];
      && last.usart.dropped == [] && !last.ends.refused
      && |events| <= 15 * (2 + |file|)
      && last.usart.delivered == last.ends.stored <= Transfer.Header(|file|) + file
    ensures
      var last := states[|events|];
      Stuck(Transfer.Prepare(file).data, last) ==>
        (last.ends.stored == Transfer.Header(|file|) + file <==>
         forall i :: 0 <= i < |events| ==> !Unlucky(states[i], events[i]))
    ensures
      states[|events|].ends.sent == 2 + |file| ==>
        && Stuck(Transfer.Prepare(file).data, states[|events|])
        && |events| == 13 * (2 + |file|) + 2 * Sleeps(states, events, |events|)
  {
    RunKeepsInv(Transfer.Prepare(file).data, states, events, |events|);
    RunCounted(Transfer.Prepare(file).data, states, events, |events|);
    Oversleeps(Transfer.Prepare(file).data, states, events, |events|);
    StepsBound(file, states[|events|]);
    EndDelivers(file, states[|events|]);
  }

  lemma StepsBound(file: seq<Byte>, l: Link)
    requires Transfer.Prepare(file).Sends? && Inv(Transfer.Prepare(file).data, l)
    ensures Progress(l) + 2 * Arrived(Abstract(l)) <= 15 * (2 + |file|)
    ensures l.ends.sent == 2 + |file| ==> Progress(l) == 13 * (2 + |file|)
  {
    Transfer.WantsAll(file, l.ends.stored);
  }

  lemma EndDelivers(file: seq<Byte>, l: Link)
    requires Transfer.Prepare(file).Sends? && Inv(Transfer.Prepare(file).data, l)
    ensures l.usart.dropped == [] && !l.ends.refused
    ensures l.usart.delivered == l.ends.stored <= Transfer.Header(|file|) + file
    ensures l.ends.sent == 2 + |file| ==> Stuck(Transfer.Prepare(file).data, l)
    ensures Stuck(Transfer.Prepare(file).data, l) ==>
      (l.ends.stored == Transfer.Header(|file|) + file <==> !Interrupts.Overslept(l.usart))
  {
    var data := Transfer.Prepare(file).data;
    StuckIff(file, l);
    if Interrupts.Overslept(l.usart) {
      WaitingLength(l.usart);
      assert Transfer.Stage(Abstract(l)) == 2;
      assert |l.ends.stored| == l.ends.sent < |data|;
    }
  }
}
