// Sending a file over the serial line: tools/binsend.c on one side, the interrupt-driven queue and
// monitor/transfer.c on the other, one byte at a time with an acknowledgement each.

module Transfer {
  import opened Bytes
  import opened IntQueue

  const ACK: Byte := 6

  /** uint16_t as both machines keep it in memory. */
  function Header(len: nat): seq<Byte>
    requires len < 0x1_0000
  {
    [len % 256, len / 256]
  }

  function FromHeader(h: seq<Byte>): nat
    requires |h| == 2
  {
    (h[0] as int) + 256 * (h[1] as int)
  }

  lemma HeaderRoundTrip(len: nat)
    requires len < 0x1_0000
    ensures FromHeader(Header(len)) == len
  {
  }

  /** The low byte goes first. */
  lemma LowByteFirst(len: nat, a: Byte, b: Byte)
    requires len < 0x1_0000
    ensures Header(len) == [a, b] <==> len == (a as int) + 256 * (b as int)
  {
  }

  /** What binsend sends, unless the file is too long for the header. */
  datatype Start = TooBig | Sends(data: seq<Byte>)

  function Prepare(file: seq<Byte>): Start {
    if |file| % 0x1_0000 != |file| then TooBig else Sends(Header(|file|) + file)
  }

  /** The sender's loop index and whether it waits for an ACK; the two directions of the line; the
      receive queue; what the receiver has stored, and whether it still has to acknowledge. */
  datatype System = System(
    sent: nat,
    waiting: bool,
    refused: bool,
    line: seq<Byte>,
    queue: seq<Byte>,
    dropped: nat,
    stored: seq<Byte>,
    owesAck: bool,
    acks: seq<Byte>)

  datatype Event = Write | Arrive | Take | Acknowledge | ReadAck

  function Idle(): System {
    System(0, false, false, [], [], 0, [], false, [])
  }

  /** The receiver wants the two header bytes, and then as many as they say. */
  predicate Wants(stored: seq<Byte>) {
    |stored| < 2 || |stored| < 2 + FromHeader(stored[..2])
  }

  predicate Enabled(data: seq<Byte>, s: System, e: Event) {
    match e
    case Write => !s.waiting && s.sent < |data|
    case Arrive => s.line != []
    case Take => !s.owesAck && Wants(s.stored) && s.queue != []
    case Acknowledge => s.owesAck
    case ReadAck => s.waiting && s.acks != []
  }

  function Step(data: seq<Byte>, s: System, e: Event): System
    requires Enabled(data, s, e)
  {
    match e
    case Write => s.(line := s.line + [data[s.sent]], waiting := true)
    case Arrive =>
      if |s.queue| == BUFFER_SIZE then s.(line := s.line[1..], dropped := s.dropped + 1)
      else s.(line := s.line[1..], queue := s.queue + [s.line[0]])
    case Take => s.(queue := s.queue[1..], stored := s.stored + [s.queue[0]], owesAck := true)
    case Acknowledge => s.(acks := s.acks + [ACK], owesAck := false)
    case ReadAck =>
      if s.acks[0] == ACK then s.(acks := s.acks[1..], waiting := false, sent := s.sent + 1)
      else
        // A refused header byte ends the header only, any other the transfer.
        s.(acks := s.acks[1..], waiting := false, sent := if s.sent < 2 then 2 else |data|, refused := true)
  }

  /** A refused byte of the header is followed by the file, and a refused byte of the file by nothing. */
  lemma AfterRefusal(data: seq<Byte>, s: System)
    requires s.sent < |data| && Enabled(data, s, ReadAck) && s.acks[0] != 6
    ensures
      var t := Step(data, s, ReadAck);
      && t.refused && !t.waiting
      && if s.sent < 2 then t.sent == 2 else !Enabled(data, t, Write)
  {
  }

  // ---- The invariant

  /** How far the byte in flight has come: the number of steps it has taken. */
  function Stage(s: System): nat {
    if !s.waiting then 0
    else if s.line != [] then 1
    else if s.queue != [] then 2
    else if s.owesAck then 3
    else 4
  }

  predicate Inv(data: seq<Byte>, s: System) {
    && s.sent <= |data| && (s.waiting ==> s.sent < |data|)
    && !s.refused && s.dropped == 0
    && s.line == (if Stage(s) == 1 then [data[s.sent]] else [])
    && s.queue == (if Stage(s) == 2 then [data[s.sent]] else [])
    && (s.owesAck <==> Stage(s) == 3)
    && s.acks == (if Stage(s) == 4 then [ACK] else [])
    && s.stored == data[..s.sent + if Stage(s) >= 3 then 1 else 0]
  }

  lemma IdleInv(data: seq<Byte>)
    ensures Inv(data, Idle())
  {
  }

  /** Exactly how far a run has come. */
  function Progress(s: System): nat {
    5 * s.sent + Stage(s)
  }

  lemma StepKeepsInv(data: seq<Byte>, s: System, e: Event)
    requires Inv(data, s) && Enabled(data, s, e)
    ensures Inv(data, Step(data, s, e)) && Progress(Step(data, s, e)) == Progress(s) + 1
  {
    match e
    case Write =>
    case Arrive =>
    case Take =>
      assert data[..s.sent + 1] == data[..s.sent] + [data[s.sent]];
    case Acknowledge =>
    case ReadAck =>
  }

  // ---- Every run

  predicate IsRun(data: seq<Byte>, states: seq<System>, events: seq<Event>) {
    && |states| == |events| + 1 && states[0] == Idle()
    && forall i :: 0 <= i < |events| ==> Leads(data, states[i], events[i], states[i + 1])
  }

  predicate Leads(data: seq<Byte>, s: System, e: Event, t: System) {
    Enabled(data, s, e) && t == Step(data, s, e)
  }

  lemma {:induction false} RunInv(data: seq<Byte>, states: seq<System>, events: seq<Event>, n: nat)
    requires IsRun(data, states, events) && n <= |events|
    ensures Inv(data, states[n]) && Progress(states[n]) == n
  {
    if n == 0 {
      IdleInv(data);
    } else {
      RunInv(data, states, events, n - 1);
      assert Leads(data, states[n - 1], events[n - 1], states[n]);
      StepKeepsInv(data, states[n - 1], events[n - 1]);
    }
  }

  /** In every interleaving at most one byte is on its way unacknowledged, what is stored is a prefix
      of what is sent, the queue never holds more than one byte, and nothing is dropped or refused. */
  lemma StopAndWait(data: seq<Byte>, states: seq<System>, events: seq<Event>, n: nat)
    requires IsRun(data, states, events) && n <= |events|
    ensures
      var s := states[n];
      && |s.line| + |s.queue| + (if s.owesAck then 1 else 0) + |s.acks| == (if s.waiting then 1 else 0)
      && s.stored <= data && s.sent <= |s.stored| <= s.sent + 1
      && s.dropped == 0 && !s.refused
  {
    RunInv(data, states, events, n);
  }

  predicate Stuck(data: seq<Byte>, s: System) {
    forall e :: !Enabled(data, s, e)
  }

  /** The receiver asks for exactly the bytes that are sent. */
  lemma WantsAll(file: seq<Byte>, stored: seq<Byte>)
    requires Prepare(file).Sends? && stored <= Prepare(file).data
    ensures Wants(stored) <==> |stored| < |Prepare(file).data|
  {
    var data := Prepare(file).data;
    if |stored| >= 2 {
      assert stored[..2] == data[..2] == Header(|file|);
      HeaderRoundTrip(|file|);
    }
  }

  lemma SomeStep(file: seq<Byte>, s: System)
    requires Prepare(file).Sends? && Inv(Prepare(file).data, s) && s.sent < |Prepare(file).data|
    ensures !Stuck(Prepare(file).data, s)
  {
    var data := Prepare(file).data;
    WantsAll(file, s.stored);
    var e := match Stage(s) case 0 => Write case 1 => Arrive case 2 => Take case 3 => Acknowledge case _ => ReadAck;
    assert Enabled(data, s, e);
  }

  /** Every interleaving ends, after five steps for each byte, and it ends with the file: whatever
      the order of events, a run that can go no further has delivered everything. */
  lemma EveryRunDelivers(file: seq<Byte>, states: seq<System>, events: seq<Event>)
    requires Prepare(file).Sends? && IsRun(Prepare(file).data, states, events)
    ensures
      var last := states[|events|];
      && |events| <= 5 * (2 + |file|)
      && (Stuck(Prepare(file).data, last) <==> |events| == 5 * (2 + |file|))
      && (Stuck(Prepare(file).data, last) ==>
            last.sent == 2 + |file| == |last.stored| && last.stored[..2] == Header(|file|) && last.stored[2..] == file
            && !Wants(last.stored))
  {
    var data := Prepare(file).data;
    var last := states[|events|];
    RunInv(data, states, events, |events|);
    if last.sent < |data| {
      SomeStep(file, last);
    } else {
      WantsAll(file, last.stored);
      assert last.stored == data;
      assert data[2..] == file;
    }
  }

  /** Only files of up to 65535 bytes are sent. */
  lemma PreparesIff(file: seq<Byte>)
    ensures Prepare(file).Sends? <==> |file| <= 65535
  {
  }

  // ---- The two programs

  /** One end of the serial line: the bytes that will come in, and those that went out. */
  class Port {
    var incoming: seq<Byte>
    var outgoing: seq<Byte>

    constructor (script: seq<Byte>)
      ensures incoming == script && outgoing == []
    {
      incoming, outgoing := script, [];
    }

    method Getchar() returns (b: Byte)
      requires incoming != []
      modifies this`incoming
      ensures b == old(incoming)[0] && incoming == old(incoming)[1..]
    {
      b := incoming[0];
      incoming := incoming[1..];
    }

    method Putchar(b: Byte)
      modifies this`outgoing
      ensures outgoing == old(outgoing) + [b]
    {
      outgoing := outgoing + [b];
    }
  }

  function Acks(n: nat): (s: seq<Byte>)
    ensures |s| == n
  {
    seq(n, i => 6)
  }

  /** receive_into: stores as many bytes as asked for, and acknowledges each. */
  method ReceiveInto(port: Port, dest: array<Byte>, size: nat)
    requires size <= dest.Length && size <= |port.incoming|
    modifies port, dest
    ensures dest[..size] == old(port.incoming)[..size] && dest[size..] == old(dest[size..])
    ensures port.incoming == old(port.incoming)[size..]
    ensures port.outgoing == old(port.outgoing) + Acks(size)
  {
    var len := size;
    var p := 0;
    while len != 0
      invariant p + len == size
      invariant dest[..p] == old(port.incoming)[..p] && dest[size..] == old(dest[size..])
      invariant port.incoming == old(port.incoming)[p..]
      invariant port.outgoing == old(port.outgoing) + Acks(p)
    {
      len := len - 1;
      var b := port.Getchar();
      dest[p] := b;
      p := p + 1;
      port.Putchar(ACK);
    }
  }

  /** transfer_receive: the file ends up at the destination, and every byte was acknowledged. */
  method TransferReceive(port: Port, destination: array<Byte>, ghost file: seq<Byte>)
    requires Prepare(file).Sends? && Prepare(file).data <= port.incoming && |file| <= destination.Length
    modifies port, destination
    ensures destination[..|file|] == file && destination[|file|..] == old(destination[|file|..])
    ensures port.outgoing == old(port.outgoing) + Acks(2 + |file|)
  {
    ghost var data := Prepare(file).data;
    ghost var script := port.incoming;
    var header := new Byte[2];
    ReceiveInto(port, header, 2);
    assert header[..] == header[..2] == data[..2] == Header(|file|);
    HeaderRoundTrip(|file|);
    var len := FromHeader(header[..]);
    assert len == |file|;
    assert script[2..][..|file|] == data[2..] == file;
    ReceiveInto(port, destination, len);
    assert Acks(2) + Acks(|file|) == Acks(2 + |file|);
  }

  /** How many bytes get sent: up to the first that is not acknowledged. */
  function Acknowledged(replies: seq<Byte>, n: nat): (k: nat)
    requires n <= |replies|
    ensures k <= n
    ensures forall i :: 0 <= i < k ==> replies[i] == ACK
    ensures k < n ==> replies[k] != ACK
  {
    if n == 0 then 0
    else
      var k := Acknowledged(replies, n - 1);
      if k < n - 1 then k else if replies[n - 1] == ACK then n else n - 1
  }

  /** transfer_byte */
  method TransferByte(port: Port, b: Byte) returns (ok: bool)
    requires port.incoming != []
    modifies port
    ensures ok == (old(port.incoming)[0] == 6)
    ensures port.incoming == old(port.incoming)[1..] && port.outgoing == old(port.outgoing) + [b]
  {
    port.Putchar(b);
    var reply := port.Getchar();
    ok := reply == ACK;
  }

  /** What goes out of some bytes, given the replies. */
  function Reaching(replies: seq<Byte>, bytes: seq<Byte>): seq<Byte>
    requires |bytes| <= |replies|
  {
    var k := Acknowledged(replies, |bytes|);
    if k < |bytes| then bytes[..k + 1] else bytes
  }

  /** transfer_bytes: succeeds if and only if every reply was an ACK, and sends nothing after the
      first that was not. */
  method TransferBytes(port: Port, ptr: seq<Byte>) returns (ok: bool)
    requires |ptr| <= |port.incoming|
    modifies port
    ensures ok <==> Acknowledged(old(port.incoming), |ptr|) == |ptr|
    ensures port.outgoing == old(port.outgoing) + Reaching(old(port.incoming), ptr)
    ensures port.incoming == old(port.incoming)[|Reaching(old(port.incoming), ptr)|..]
  {
    var i := 0;
    while i < |ptr|
      invariant 0 <= i <= |ptr|
      invariant Acknowledged(old(port.incoming), i) == i
      invariant port.incoming == old(port.incoming)[i..]
      invariant port.outgoing == old(port.outgoing) + ptr[..i]
    {
      var acked := TransferByte(port, ptr[i]);
      assert ptr[..i] + [ptr[i]] == ptr[..i + 1];
      if !acked {
        StopsThere(old(port.incoming), i, |ptr|);
        return false;
      }
      i := i + 1;
    }
    assert ptr[..i] == ptr;
    return true;
  }

  lemma StopsThere(replies: seq<Byte>, k: nat, n: nat)
    requires k < n <= |replies| && replies[k] != ACK && Acknowledged(replies, k) == k
    ensures Acknowledged(replies, n) == k
  {
  }

  /** main of binsend. Whether the header was acknowledged makes no difference to it. */
  method SendFile(port: Port, file: seq<Byte>) returns (sent: bool)
    requires |port.incoming| >= 2 + |file|
    modifies port
    ensures sent <==> Prepare(file).Sends?
    ensures port.outgoing == old(port.outgoing) +
      if !sent then []
      else
        var header := Reaching(old(port.incoming), Header(|file|));
        header + Reaching(old(port.incoming)[|header|..], file)
    ensures sent && (forall i :: 0 <= i < 2 + |file| ==> old(port.incoming)[i] == ACK) ==>
      port.outgoing == old(port.outgoing) + Prepare(file).data
  {
    var fileSize := |file|;
    if fileSize % 0x1_0000 != fileSize {
      return false;
    }
    var _ := TransferBytes(port, Header(fileSize));
    var _ := TransferBytes(port, file);
    return true;
  }
}
