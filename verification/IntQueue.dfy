// The receive queue of monitor/hardware/stm32f411xce/stm32f411xce_usart.c: a ring of 24 bytes that
// the interrupt handler fills and usart_getbyte empties.

module IntQueue {
  import opened Bytes

  const BUFFER_SIZE: nat := 24

  /** The slot i places on from the front. */
  function Slot(front: nat, i: nat): (slot: nat)
    ensures slot < BUFFER_SIZE
  {
    (front + i) % BUFFER_SIZE
  }

  /** The n bytes of a ring from a place on. */
  function FromRing(buffer: seq<Byte>, front: nat, n: nat): (s: seq<Byte>)
    requires |buffer| == BUFFER_SIZE
    ensures |s| == n
  {
    seq(n, i requires 0 <= i < n => buffer[Slot(front, i)])
  }

  lemma WrapOnce(x: nat)
    requires x < 2 * BUFFER_SIZE
    ensures x % BUFFER_SIZE == if x < BUFFER_SIZE then x else x - BUFFER_SIZE
  {
  }

  /** Writing at the free end of the ring appends. */
  lemma PutAppends(buffer: seq<Byte>, front: nat, n: nat, b: Byte)
    requires |buffer| == BUFFER_SIZE && front < BUFFER_SIZE && n < BUFFER_SIZE
    ensures
      var back := (front + n) % BUFFER_SIZE;
      FromRing(buffer[back := b], front, n + 1) == FromRing(buffer, front, n) + [b]
  {
    var back := (front + n) % BUFFER_SIZE;
    WrapOnce(front + n);
    forall i: nat | i < n ensures Slot(front, i) != back {
      WrapOnce(front + i);
    }
  }

  lemma BackMoves(front: nat, n: nat)
    requires front < BUFFER_SIZE && n < BUFFER_SIZE
    ensures ((front + n) % BUFFER_SIZE + 1) % BUFFER_SIZE == (front + (n + 1)) % BUFFER_SIZE
  {
    WrapOnce(front + n);
    WrapOnce((front + n) % BUFFER_SIZE + 1);
    WrapOnce(front + (n + 1));
  }

  /** Moving the front on removes the first byte. */
  lemma GetRemoves(buffer: seq<Byte>, front: nat, n: nat)
    requires |buffer| == BUFFER_SIZE && front < BUFFER_SIZE && 0 < n <= BUFFER_SIZE
    ensures FromRing(buffer, front, n) == [buffer[front]] + FromRing(buffer, (front + 1) % BUFFER_SIZE, n - 1)
    ensures ((front + 1) % BUFFER_SIZE + (n - 1)) % BUFFER_SIZE == (front + n) % BUFFER_SIZE
  {
    var rest := (front + 1) % BUFFER_SIZE;
    SlotShift(front, n - 1);
    var s := FromRing(buffer, front, n);
    var t := [buffer[front]] + FromRing(buffer, rest, n - 1);
    forall i | 0 <= i < n ensures s[i] == t[i] {
      if i > 0 {
        SlotShift(front, i - 1);
      }
    }
  }

  lemma SlotShift(front: nat, i: nat)
    requires front < BUFFER_SIZE && i < BUFFER_SIZE
    ensures Slot((front + 1) % BUFFER_SIZE, i) == Slot(front, i + 1)
  {
    WrapOnce(front + 1);
    WrapOnce((front + 1) % BUFFER_SIZE + i);
    WrapOnce(front + i + 1);
  }

  class Queue {
    const buffer: array<Byte>
    var len: nat
    var front: nat
    var back: nat

    ghost predicate Valid()
      reads this, buffer
    {
      && buffer.Length == BUFFER_SIZE
      && len <= BUFFER_SIZE && front < BUFFER_SIZE
      && back == (front + len) % BUFFER_SIZE
    }

    ghost function Contents(): seq<Byte>
      requires Valid()
      reads this, buffer
    {
      FromRing(buffer[..], front, len)
    }

    /** intqueue_init, which reuses a buffer once it has one. */
    constructor (oldBuffer: array<Byte>)
      requires oldBuffer.Length == BUFFER_SIZE
      ensures Valid() && buffer == oldBuffer && Contents() == []
    {
      buffer := oldBuffer;
      len, front, back := 0, 0, 0;
    }

    predicate IsEmpty()
      reads this
    {
      len == 0
    }

    predicate IsFull()
      reads this
    {
      len == BUFFER_SIZE
    }

    /** intqueue_get: the first byte, or 0 of an empty queue. */
    method Get() returns (b: Byte)
      requires Valid()
      modifies this`front, this`len
      ensures Valid()
      ensures
        if old(Contents()) == [] then b == 0 && Contents() == []
        else b == old(Contents())[0] && Contents() == old(Contents())[1..]
    {
      if IsEmpty() {
        return 0;
      }
      GetRemoves(buffer[..], front, len);
      b := buffer[front];
      front := front + 1;
      front := front % BUFFER_SIZE;
      len := len - 1;
    }

    /** intqueue_put_from_isr: a full queue drops the byte. */
    method PutFromIsr(b: Byte)
      requires Valid()
      modifies this`back, this`len, buffer
      ensures Valid()
      ensures Contents() ==
        if |old(Contents())| == BUFFER_SIZE then old(Contents()) else old(Contents()) + [b]
    {
      if IsFull() {
        return;
      }
      PutAppends(buffer[..], front, len, b);
      BackMoves(front, len);
      buffer[back] := b;
      back := back + 1;
      back := back % BUFFER_SIZE;
      len := len + 1;
    }
  }
}
