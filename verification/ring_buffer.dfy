/**
 The CDC receive ring buffer: a fixed array of CDC_SERIAL_BUFFER_SIZE bytes
 with a `head` index (next slot to write) and a `tail` index (next slot to
 read). Both indices are reduced modulo the capacity on every update, and one
 slot is always left empty so that "full" and "empty" can be told apart.

 The buffer is abstracted to the queue of unread bytes, oldest first
 (`Contents`); every operation is specified by what it does to that queue.
 */
module RingBuffer {
  import opened Bytes

  /** CDC_SERIAL_BUFFER_SIZE. */
  const Capacity: nat := 1024

  datatype Ring = Ring(buf: seq<byte>, head: nat, tail: nat)

  /** The array has exactly Capacity slots and both indices address one of them. */
  predicate Valid(rb: Ring) {
    |rb.buf| == Capacity && rb.head < Capacity && rb.tail < Capacity
  }

  /** How many slots forward `to` lies from `from`, wrapping around. */
  function Distance(from: nat, to: nat): nat
    requires from < Capacity && to < Capacity
  {
    if from <= to then to - from else Capacity + to - from
  }

  /** Distance is what `(Capacity + to - from) % Capacity` computes. */
  lemma DistanceMod(from: nat, to: nat)
    requires from < Capacity && to < Capacity
    ensures Distance(from, to) == (Capacity + to - from) % Capacity
    ensures Distance(from, to) < Capacity
  {
  }

  /** One step forward from `from` brings `to` one slot closer. */
  lemma DistanceStep(from: nat, to: nat)
    requires from < Capacity && to < Capacity && from != to
    ensures Distance((from + 1) % Capacity, to) == Distance(from, to) - 1
  {
    if from + 1 < Capacity {
      assert (from + 1) % Capacity == from + 1;
    } else {
      assert (from + 1) % Capacity == 0;
    }
  }

  /** The bytes in the slots from `from` up to, but not including, `to`,
      walking forward and wrapping from the last slot to slot 0. */
  function Window(buf: seq<byte>, from: nat, to: nat): (w: seq<byte>)
    requires |buf| == Capacity && from < Capacity && to < Capacity
    decreases Distance(from, to)
  {
    if from == to then []
    else
      DistanceStep(from, to);
      [buf[from]] + Window(buf, (from + 1) % Capacity, to)
  }

  /** The unread bytes, oldest first: the slots from tail up to head. */
  function Contents(rb: Ring): seq<byte>
    requires Valid(rb)
  {
    Window(rb.buf, rb.tail, rb.head)
  }

  /** A window spans the forward distance between its ends. */
  lemma {:induction false} WindowLength(buf: seq<byte>, from: nat, to: nat)
    requires |buf| == Capacity && from < Capacity && to < Capacity
    ensures |Window(buf, from, to)| == Distance(from, to)
    decreases Distance(from, to)
  {
    if from != to {
      DistanceStep(from, to);
      WindowLength(buf, (from + 1) % Capacity, to);
    }
  }

  /** The i-th byte of a window is i slots after its start, wrapping around. */
  lemma {:induction false} WindowAt(buf: seq<byte>, from: nat, to: nat, i: nat)
    requires |buf| == Capacity && from < Capacity && to < Capacity
    requires i < |Window(buf, from, to)|
    ensures Window(buf, from, to)[i] == buf[(from + i) % Capacity]
    decreases i
  {
    if i == 0 {
      assert from % Capacity == from;
    } else {
      var next := (from + 1) % Capacity;
      assert Window(buf, from, to) == [buf[from]] + Window(buf, next, to);
      WindowAt(buf, next, to, i - 1);
      WindowLength(buf, from, to);
      WrapStep(from, i);
    }
  }

  /** Taking one wrapped step and then i - 1 more is taking i steps. */
  lemma WrapStep(from: nat, i: nat)
    requires from < Capacity && 0 < i < Capacity
    ensures ((from + 1) % Capacity + (i - 1)) % Capacity == (from + i) % Capacity
  {
    if from + 1 == Capacity {
      assert (from + 1) % Capacity == 0;
    } else {
      assert (from + 1) % Capacity == from + 1;
    }
  }

  /** The zero-filled buffer with both indices at 0, as statically initialised. */
  function Initial(): (rb: Ring)
    ensures Valid(rb)
    ensures Contents(rb) == []
  {
    Ring(seq(Capacity, _ => 0), 0, 0)
  }

  /** How many unread bytes there are, as `Serial_::available` computes it. */
  function Available(rb: Ring): (n: nat)
    requires Valid(rb)
    ensures n == |Contents(rb)|
    ensures n < Capacity
    ensures n == 0 <==> rb.head == rb.tail
  {
    WindowLength(rb.buf, rb.tail, rb.head);
    DistanceMod(rb.tail, rb.head);
    (Capacity + rb.head - rb.tail) % Capacity
  }

  /** The i-th unread byte sits i slots after the tail, wrapping around. */
  lemma ContentsAt(rb: Ring, i: nat)
    requires Valid(rb)
    requires i < |Contents(rb)|
    ensures Contents(rb)[i] == rb.buf[(rb.tail + i) % Capacity]
  {
    WindowAt(rb.buf, rb.tail, rb.head, i);
  }

  /** The pump's stop condition: advancing head would make it equal tail. */
  predicate Full(rb: Ring)
    requires Valid(rb)
  {
    (rb.head + 1) % Capacity == rb.tail
  }

  /** Full means exactly Capacity - 1 unread bytes: one slot always stays empty. */
  lemma FullIffAtCapacity(rb: Ring)
    requires Valid(rb)
    ensures Full(rb) <==> |Contents(rb)| == Capacity - 1
    ensures |Contents(rb)| <= Capacity - 1
  {
    var n := Available(rb);
  }

  /** The oldest unread byte, or -1 when there is none (`Serial_::peek`). */
  function Peek(rb: Ring): (c: int)
    requires Valid(rb)
    ensures c == -1 <==> Contents(rb) == []
    ensures c != -1 ==> 0 <= c < 256 && c == Contents(rb)[0]
  {
    if rb.head == rb.tail then -1
    else
      ContentsAt(rb, 0);
      rb.buf[rb.tail]
  }

  /** Store one byte at head and advance head: the byte joins the back of the queue. */
  function Push(rb: Ring, c: byte): (rb': Ring)
    requires Valid(rb)
    requires !Full(rb)
    ensures Valid(rb')
    ensures rb'.tail == rb.tail
    ensures Contents(rb') == Contents(rb) + [c]
  {
    var rb' := Ring(rb.buf[rb.head := c], (rb.head + 1) % Capacity, rb.tail);
    PushContents(rb, c, rb');
    rb'
  }

  /** Walking forward from `from`, the slot `to` is first reached after exactly
      Distance(from, to) steps. */
  lemma SlotReached(from: nat, to: nat, i: nat)
    requires from < Capacity && to < Capacity
    requires i <= Distance(from, to)
    ensures (from + i) % Capacity == to <==> i == Distance(from, to)
  {
    if from + i < Capacity {
      assert (from + i) % Capacity == from + i;
    } else {
      assert (from + i) % Capacity == from + i - Capacity;
    }
  }

  lemma PushContents(rb: Ring, c: byte, rb': Ring)
    requires Valid(rb) && !Full(rb)
    requires rb' == Ring(rb.buf[rb.head := c], (rb.head + 1) % Capacity, rb.tail)
    ensures Valid(rb')
    ensures Contents(rb') == Contents(rb) + [c]
  {
    var n := Distance(rb.tail, rb.head);
    WindowLength(rb.buf, rb.tail, rb.head);
    WindowLength(rb'.buf, rb'.tail, rb'.head);
    FullIffAtCapacity(rb);
    if rb.head + 1 < Capacity {
      assert rb'.head == rb.head + 1;
    } else {
      assert rb'.head == 0;
    }
    assert Distance(rb.tail, rb'.head) == n + 1;
    forall i | 0 <= i < n + 1
      ensures Contents(rb')[i] == (Contents(rb) + [c])[i]
    {
      ContentsAt(rb', i);
      SlotReached(rb.tail, rb.head, i);
      if i < n {
        ContentsAt(rb, i);
      }
    }
  }

  /** Advance tail past the oldest unread byte: the queue loses its front. */
  function Pop(rb: Ring): (rb': Ring)
    requires Valid(rb)
    requires rb.head != rb.tail
    ensures Valid(rb')
    ensures rb'.head == rb.head
    ensures Contents(rb') == Contents(rb)[1..]
  {
    var rb' := rb.(tail := (rb.tail + 1) % Capacity);
    PopContents(rb, rb');
    rb'
  }

  lemma PopContents(rb: Ring, rb': Ring)
    requires Valid(rb) && rb.head != rb.tail
    requires rb' == rb.(tail := (rb.tail + 1) % Capacity)
    ensures Valid(rb')
    ensures Contents(rb') == Contents(rb)[1..]
  {
    var n := Available(rb);
    var n' := Available(rb');
    assert n' == n - 1;
    forall i | 0 <= i < n'
      ensures Contents(rb')[i] == Contents(rb)[1..][i]
    {
      ContentsAt(rb', i);
      ContentsAt(rb, i + 1);
    }
  }
}
