// usart_getbyte on its interrupt path, instruction by instruction, with the receive interrupt
// allowed to run between any two steps unless the critical section masks it.

module Interrupts {
  import opened Bytes
  import opened IntQueue

  /** Where usart_getbyte, with intqueue_get inside it, stands. */
  datatype Place =
    | CheckEmpty    // while (1): is there a byte?
    | BeforeSleep   // there was none: __WFI comes next
    | Asleep        // until an interrupt
    | CheckAgain    // intqueue_get asks once more
    | EnterCritical // interrupts off, nesting counted
    | TakeByte      // b = buffer[front++]
    | WrapFront     // front %= BUFFER_SIZE
    | LoadLen       // len-- reads len
    | StoreLen      // and writes it back
    | LeaveCritical // count down, interrupts on at zero
    | Return

  datatype System = System(
    buffer: seq<Byte>,
    len: int,
    front: int,
    back: int,
    place: Place,
    b: Byte,            // the byte taken
    loaded: int,        // len as loaded
    criticalCount: int, // s_critical_count
    masked: bool,
    enableBreak: bool,
    breaks: nat,          // how often Ctrl-C asked for the debugger
    accepted: seq<Byte>,  // every byte the handler put into the queue
    dropped: seq<Byte>,   // every byte it did not
    delivered: seq<Byte>) // every byte usart_getbyte returned

  datatype Event = Consumer | Receive(byte: Byte)

  const CTRL_C: Byte := 3

  function Fresh(buffer: seq<Byte>, enableBreak: bool): System {
    System(buffer, 0, 0, 0, CheckEmpty, 0, 0, 0, false, enableBreak, 0, [], [], [])
  }

  predicate InRing(i: int) {
    0 <= i < BUFFER_SIZE
  }

  predicate Wellformed(s: System) {
    && |s.buffer| == BUFFER_SIZE
    && InRing(s.back)
    && (s.place.TakeByte? ==> InRing(s.front))
    && (s.place.WrapFront? ==> 0 <= s.front)
  }

  /** _usart_isr, when a byte has come in. */
  function Handler(s: System, b: Byte): System
    requires Wellformed(s)
  {
    if s.enableBreak && b == CTRL_C then s.(breaks := s.breaks + 1)
    else if s.len == BUFFER_SIZE then s.(dropped := s.dropped + [b])
    else
      s.(buffer := s.buffer[s.back := b],
         back := (s.back + 1) % BUFFER_SIZE,
         len := s.len + 1,
         accepted := s.accepted + [b])
  }

  /** The handler, and what it does to a sleeping processor. */
  function Interrupted(s: System, b: Byte): System
    requires Wellformed(s)
  {
    var after := Handler(s, b);
    if after.place.Asleep? then after.(place := CheckEmpty) else after
  }

  /** One step of the consumer. Asleep it takes none. */
  function Advance(s: System): System
    requires Wellformed(s)
  {
    match s.place
    case CheckEmpty => if s.len == 0 then s.(place := BeforeSleep) else s.(place := CheckAgain)
    case BeforeSleep => s.(place := Asleep)
    case Asleep => s
    case CheckAgain => if s.len == 0 then s.(b := 0, place := Return) else s.(place := EnterCritical)
    case EnterCritical => s.(masked := true, criticalCount := s.criticalCount + 1, place := TakeByte)
    case TakeByte => s.(b := s.buffer[s.front], front := s.front + 1, place := WrapFront)
    case WrapFront => s.(front := s.front % BUFFER_SIZE, place := LoadLen)
    case LoadLen => s.(loaded := s.len, place := StoreLen)
    case StoreLen => s.(len := s.loaded - 1, place := LeaveCritical)
    case LeaveCritical =>
      s.(criticalCount := s.criticalCount - 1,
         masked := if s.criticalCount - 1 == 0 then false else s.masked,
         place := Return)
    case Return => s.(delivered := s.delivered + [s.b], place := CheckEmpty)
  }

  /** A masked interrupt stays pending: nothing happens until it is unmasked. */
  function Happens(s: System, e: Event): System
    requires Wellformed(s)
  {
    match e
    case Consumer => Advance(s)
    case Receive(b) => if s.masked then s else Interrupted(s, b)
  }

  // ---- The invariant

  predicate Inside(p: Place) {
    p.TakeByte? || p.WrapFront? || p.LoadLen? || p.StoreLen? || p.LeaveCritical?
  }

  /** The byte taken from the ring but not returned yet. */
  function InHand(s: System): seq<Byte> {
    if s.place.WrapFront? || s.place.LoadLen? || s.place.StoreLen? || s.place.LeaveCritical? || s.place.Return?
    then [s.b] else []
  }

  /** How many bytes are still in the ring. */
  function Waiting(s: System): int {
    if s.place.WrapFront? || s.place.LoadLen? || s.place.StoreLen? then s.len - 1 else s.len
  }

  function Front(s: System): int {
    if s.place.WrapFront? then s.front % BUFFER_SIZE else s.front
  }

  predicate Inv(s: System) {
    && |s.buffer| == BUFFER_SIZE
    && 0 <= Waiting(s) && 0 <= s.len <= BUFFER_SIZE
    && (if s.place.WrapFront? then 0 < s.front <= BUFFER_SIZE else InRing(s.front))
    && s.back == (Front(s) + Waiting(s)) % BUFFER_SIZE
    && (s.masked <==> Inside(s.place)) && s.criticalCount == (if Inside(s.place) then 1 else 0)
    && (s.place.CheckAgain? || s.place.EnterCritical? || s.place.TakeByte? ==> 0 < s.len)
    && (s.place.StoreLen? ==> s.loaded == s.len)
    && s.accepted == s.delivered + InHand(s) + FromRing(s.buffer, Front(s), Waiting(s))
  }

  lemma FreshInv(buffer: seq<Byte>, enableBreak: bool)
    requires |buffer| == BUFFER_SIZE
    ensures Inv(Fresh(buffer, enableBreak))
  {
  }

  lemma HandlerKeepsInv(s: System, b: Byte)
    requires Inv(s) && !s.masked
    ensures Wellformed(s) && Inv(Handler(s, b))
  {
    if s.len < BUFFER_SIZE {
      PutAppends(s.buffer, s.front, s.len, b);
      BackMoves(s.front, s.len);
    }
  }

  lemma AdvanceKeepsInv(s: System)
    requires Inv(s)
    ensures Wellformed(s) && Inv(Advance(s))
  {
    if s.place.TakeByte? {
      TakeKeepsInv(s);
    }
  }

  lemma TakeKeepsInv(s: System)
    requires Inv(s) && s.place.TakeByte?
    ensures Wellformed(s) && Inv(Advance(s))
  {
    GetRemoves(s.buffer, s.front, s.len);
  }

  lemma StepKeepsInv(s: System, e: Event)
    requires Inv(s)
    ensures Wellformed(s) && Inv(Happens(s, e))
  {
    match e
    case Consumer => AdvanceKeepsInv(s);
    case Receive(b) => if !s.masked { HandlerKeepsInv(s, b); }
  }

  // ---- Every interleaving

  predicate IsRun(states: seq<System>, events: seq<Event>) {
    && |states| == |events| + 1
    && forall i :: 0 <= i < |events| ==> Leads(states[i], events[i], states[i + 1])
  }

  predicate Leads(s: System, e: Event, t: System) {
    Wellformed(s) && t == Happens(s, e)
  }

  /** Whenever the handler may run, the queue is what a FIFO would hold: the bytes accepted are, in
      order, those delivered, the one in hand, and those in the ring. The consumer never finds the
      queue empty after it was seen full of something, so it never makes up a zero. */
  predicate Faithful(s: System) {
    && |s.buffer| == BUFFER_SIZE
    && 0 <= s.len <= BUFFER_SIZE
    && s.delivered + InHand(s) <= s.accepted
    && (!s.masked ==>
          && InRing(s.front) && s.back == (s.front + s.len) % BUFFER_SIZE
          && s.accepted == s.delivered + InHand(s) + FromRing(s.buffer, s.front, s.len))
    && (s.place.CheckAgain? ==> s.len > 0)
  }

  lemma {:induction false} EveryInterleaving(states: seq<System>, events: seq<Event>, n: nat)
    requires IsRun(states, events) && n <= |events|
    requires |states[0].buffer| == BUFFER_SIZE && states[0] == Fresh(states[0].buffer, states[0].enableBreak)
    ensures Inv(states[n]) && Faithful(states[n])
  {
    if n == 0 {
      FreshInv(states[0].buffer, states[0].enableBreak);
    } else {
      EveryInterleaving(states, events, n - 1);
      assert Leads(states[n - 1], events[n - 1], states[n]);
      StepKeepsInv(states[n - 1], events[n - 1]);
    }
  }

  /** The FIFO holds 24 bytes besides the one in hand. */
  predicate FifoFull(s: System) {
    |s.accepted| == |s.delivered| + |InHand(s)| + 24
  }

  /** Between two states of a run, what the handler does to the FIFO. */
  predicate DropsExactly(s: System, e: Event, t: System) {
    match e
    case Consumer => t.accepted == s.accepted && t.dropped == s.dropped
    case Receive(b) =>
      if s.masked || (s.enableBreak && b == CTRL_C) then t.accepted == s.accepted && t.dropped == s.dropped
      else if FifoFull(s) then t.accepted == s.accepted && t.dropped == s.dropped + [b]
      else t.accepted == s.accepted + [b] && t.dropped == s.dropped
  }

  /** At every event of every interleaving, a byte that the handler takes is lost if and only if 24
      bytes were accepted and not yet taken out, and is otherwise accepted. */
  lemma DroppedOnlyWhenFull(states: seq<System>, events: seq<Event>, n: nat)
    requires IsRun(states, events) && n < |events|
    requires |states[0].buffer| == BUFFER_SIZE && states[0] == Fresh(states[0].buffer, states[0].enableBreak)
    ensures DropsExactly(states[n], events[n], states[n + 1])
  {
    EveryInterleaving(states, events, n);
    assert Leads(states[n], events[n], states[n + 1]);
    if !states[n].masked {
      FullIsFull(states[n]);
    }
  }

  /** The count that the handler looks at is full exactly when the FIFO is. */
  lemma FullIsFull(s: System)
    requires Inv(s) && !s.masked
    ensures s.len == BUFFER_SIZE <==> FifoFull(s)
  {
    assert |s.accepted| == |s.delivered| + |InHand(s)| + Waiting(s);
  }

  /** How many Ctrl-C have come in while the handler could run. */
  function CtrlCs(states: seq<System>, events: seq<Event>, n: nat): nat
    requires n <= |events| < |states|
  {
    if n == 0 then 0
    else
      CtrlCs(states, events, n - 1) +
      if events[n - 1] == Receive(3) && !states[n - 1].masked then 1 else 0
  }

  /** Each of them asks for the debugger once, if that is enabled, and nothing else does. */
  lemma {:induction false} BreaksCounted(states: seq<System>, events: seq<Event>, n: nat)
    requires IsRun(states, events) && n <= |events|
    ensures states[n].enableBreak == states[0].enableBreak
    ensures states[n].breaks == states[0].breaks + if states[0].enableBreak then CtrlCs(states, events, n) else 0
  {
    if n > 0 {
      BreaksCounted(states, events, n - 1);
      assert Leads(states[n - 1], events[n - 1], states[n]);
      StepBreaks(states[n - 1], events[n - 1]);
    }
  }

  lemma StepBreaks(s: System, e: Event)
    requires Wellformed(s)
    ensures Happens(s, e).enableBreak == s.enableBreak
    ensures Happens(s, e).breaks ==
      s.breaks + if s.enableBreak && e == Receive(3) && !s.masked then 1 else 0
  {
  }

  // ---- Sleeping

  /** There is a byte, and nothing but another interrupt gets the consumer to look for it. */
  predicate Overslept(s: System) {
    (s.place.BeforeSleep? || s.place.Asleep?) && s.len != 0
  }

  /** A byte is accepted after the queue was seen empty and before __WFI. */
  predicate Missed(s: System, e: Event) {
    s.place.BeforeSleep? && e.Receive? && !(s.enableBreak && e.byte == CTRL_C) && s.len != BUFFER_SIZE
  }

  predicate Wakes(s: System, e: Event) {
    s.place.Asleep? && e.Receive?
  }

  lemma StepOversleeps(s: System, e: Event)
    requires Inv(s)
    ensures Wellformed(s)
    ensures Overslept(Happens(s, e)) <==> Missed(s, e) || (Overslept(s) && !Wakes(s, e))
  {
  }

  ghost predicate MissedOne(states: seq<System>, events: seq<Event>, n: nat)
    requires n <= |events| < |states|
  {
    exists i :: 0 <= i < n && MissedSince(states, events, i, n)
  }

  predicate MissedSince(states: seq<System>, events: seq<Event>, i: nat, n: nat)
    requires i < n <= |events| < |states|
  {
    Missed(states[i], events[i]) && forall j :: i < j < n ==> !Wakes(states[j], events[j])
  }

  lemma MissedNext(states: seq<System>, events: seq<Event>, n: nat)
    requires 0 < n <= |events| < |states|
    ensures MissedOne(states, events, n) <==>
      || Missed(states[n - 1], events[n - 1])
      || (MissedOne(states, events, n - 1) && !Wakes(states[n - 1], events[n - 1]))
  {
    if Missed(states[n - 1], events[n - 1]) {
      assert MissedSince(states, events, n - 1, n);
    } else if MissedOne(states, events, n) {
      var i :| 0 <= i < n && MissedSince(states, events, i, n);
      assert MissedSince(states, events, i, n - 1);
    } else if MissedOne(states, events, n - 1) && !Wakes(states[n - 1], events[n - 1]) {
      var i :| 0 <= i < n - 1 && MissedSince(states, events, i, n - 1);
      assert MissedSince(states, events, i, n);
    }
  }

  /** At any point of any interleaving the consumer sleeps, or is about to, with a byte in the queue
      if and only if it missed one and no interrupt has woken it since. */
  lemma {:induction false} SleepsOnBytes(states: seq<System>, events: seq<Event>, n: nat)
    requires IsRun(states, events) && n <= |events|
    requires |states[0].buffer| == BUFFER_SIZE && states[0] == Fresh(states[0].buffer, states[0].enableBreak)
    ensures Overslept(states[n]) <==> MissedOne(states, events, n)
  {
    if n > 0 {
      SleepsOnBytes(states, events, n - 1);
      MissedNext(states, events, n);
      OversleptAfter(states, events, n);
    }
  }

  lemma OversleptAfter(states: seq<System>, events: seq<Event>, n: nat)
    requires IsRun(states, events) && 0 < n <= |events|
    requires |states[0].buffer| == BUFFER_SIZE && states[0] == Fresh(states[0].buffer, states[0].enableBreak)
    ensures Overslept(states[n]) <==>
      || Missed(states[n - 1], events[n - 1])
      || (Overslept(states[n - 1]) && !Wakes(states[n - 1], events[n - 1]))
  {
    EveryInterleaving(states, events, n - 1);
    assert Leads(states[n - 1], events[n - 1], states[n]);
    NextOversleeps(states[n - 1], events[n - 1], states[n]);
  }

  lemma NextOversleeps(s: System, e: Event, t: System)
    requires Inv(s) && Leads(s, e, t)
    ensures Overslept(t) <==> Missed(s, e) || (Overslept(s) && !Wakes(s, e))
  {
    StepOversleeps(s, e);
  }

  /** The critical section is needed: were the interrupt not masked between reading len and
      writing it back, the count would lose the byte just put in. */
  lemma WithoutMasking(s: System, b: Byte)
    requires Inv(s) && s.place.StoreLen? && s.len < BUFFER_SIZE && !(s.enableBreak && b == CTRL_C)
    ensures
      var t := Advance(Handler(s, b));
      t.len < |t.accepted| - |t.delivered + InHand(t)|
  {
  }
}
