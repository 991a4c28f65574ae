/**
 The receive side of `Serial_`: the pump `accept` that moves bytes from the
 CDC OUT endpoint into the ring buffer, and the consumer operation `read`.
 `available` and `peek` are `RingBuffer.Available` and `RingBuffer.Peek`.

 The OUT endpoint is modelled as the queue of bytes the host has sent that
 the device has not yet taken: `USBD_Available` is "the queue is non-empty",
 `USBD_Recv` takes its front byte, and the call to `UDD_ReleaseRX` is
 reported as a boolean event.
 */
module Receive {
  import opened Bytes
  import opened RingBuffer

  /** The receive buffer together with the bytes still waiting in the OUT endpoint. */
  datatype Port = Port(rx: Ring, pending: seq<byte>)

  /** Every byte the host has sent and the application has not yet read, oldest first. */
  function Stream(p: Port): seq<byte>
    requires Valid(p.rx)
  {
    Contents(p.rx) + p.pending
  }

  /** What a pass of the pump leaves behind: either the endpoint is drained
      or the buffer is full. */
  predicate Settled(p: Port)
    requires Valid(p.rx)
  {
    p.pending == [] || Full(p.rx)
  }

  function Min(a: int, b: int): int {
    if a <= b then a else b
  }

  /** `Serial_::accept`: copy bytes from the front of the endpoint queue to the
      back of the buffer until the buffer is full or the endpoint is empty; in
      the latter case the endpoint's receive bank is released. */
  method Accept(rb: Ring, ep: seq<byte>) returns (rb': Ring, ep': seq<byte>, released: bool)
    requires Valid(rb)
    ensures Valid(rb')
    ensures rb'.tail == rb.tail
    ensures Contents(rb') + ep' == Contents(rb) + ep
    ensures |Contents(rb')| == Min(|Contents(rb)| + |ep|, Capacity - 1)
    ensures |ep'| <= |ep| && ep' == ep[|ep| - |ep'|..]
    ensures ep' == [] || Full(rb')
    ensures released <==> |Contents(rb)| + |ep| < Capacity - 1
  {
    rb', ep', released := rb, ep, false;
    var i := (rb'.head + 1) % Capacity;
    while i != rb'.tail
      invariant Valid(rb')
      invariant rb'.tail == rb.tail
      invariant i == (rb'.head + 1) % Capacity
      invariant Contents(rb') + ep' == Contents(rb) + ep
      invariant |ep'| <= |ep| && ep' == ep[|ep| - |ep'|..]
      decreases |ep'|
    {
      if ep' == [] {
        released := true;
        break;
      }
      var c := ep'[0];
      assert ep' == [c] + ep'[1..];
      ep' := ep'[1..];
      rb' := Push(rb', c);
      i := (i + 1) % Capacity;
    }
    FullIffAtCapacity(rb');
  }

  /** `Serial_::read`: take the oldest unread byte, or return -1 when the buffer
      is empty; after a successful read, refill from the endpoint if it holds data. */
  method Read(p: Port) returns (c: int, p': Port, released: bool)
    requires Valid(p.rx)
    ensures Valid(p'.rx)
    ensures c == Peek(p.rx)
    ensures c == -1 ==> p' == p && !released
    ensures c != -1 ==> 0 <= c < 256 && [c] + Stream(p') == Stream(p)
    ensures c != -1 ==> p'.rx.tail == (p.rx.tail + 1) % Capacity && Settled(p')
    ensures c != -1 && p.pending == [] ==> p'.pending == [] && p'.rx.head == p.rx.head && !released
    ensures released ==> p'.pending == []
    ensures released <==> c != -1 && p.pending != [] && |Contents(p.rx)| - 1 + |p.pending| < Capacity - 1
  {
    if p.rx.head == p.rx.tail {
      c, p', released := -1, p, false;
    } else {
      c := p.rx.buf[p.rx.tail];
      ContentsAt(p.rx, 0);
      var rx := Pop(p.rx);
      assert Contents(p.rx) == [c] + Contents(rx);
      if p.pending != [] {
        var rx', ep, r := Accept(rx, p.pending);
        p', released := Port(rx', ep), r;
        assert Stream(p') == Contents(rx) + p.pending;
      } else {
        p', released := Port(rx, []), false;
        assert Stream(p') == Contents(rx);
      }
      assert [c] + Stream(p') == Stream(p);
    }
  }

  /** Once the pump has settled, an empty buffer means nothing is waiting at all. */
  lemma SettledEmpty(p: Port)
    requires Valid(p.rx) && Settled(p)
    ensures Contents(p.rx) == [] ==> Stream(p) == []
  {
    FullIffAtCapacity(p.rx);
  }

  /** n successive `read` calls deliver the next n bytes of the stream in the
      order the host sent them, none lost and none repeated. */
  method ReadMany(p: Port, n: nat) returns (got: seq<byte>, p': Port)
    requires Valid(p.rx) && Settled(p)
    requires n <= |Stream(p)|
    ensures Valid(p'.rx) && Settled(p')
    ensures got == Stream(p)[..n]
    ensures Stream(p') == Stream(p)[n..]
  {
    got, p' := [], p;
    while |got| < n
      invariant Valid(p'.rx) && Settled(p')
      invariant |got| <= n
      invariant got + Stream(p') == Stream(p)
    {
      ghost var before := Stream(p');
      assert |before| == |Stream(p)| - |got| > 0;
      SettledEmpty(p');
      var c, released;
      c, p', released := Read(p');
      assert c != -1;
      MoveFront(got, c as byte, Stream(p'), before, Stream(p));
      got := got + [c];
    }
    SplitAt(got, Stream(p'), Stream(p));
  }

  /** Moving the front of the rest to the back of what was taken keeps the whole. */
  lemma MoveFront(got: seq<byte>, c: byte, rest: seq<byte>, before: seq<byte>, whole: seq<byte>)
    requires got + before == whole
    requires [c] + rest == before
    ensures (got + [c]) + rest == whole
  {
    assert (got + [c]) + rest == got + ([c] + rest);
  }

  lemma SplitAt(front: seq<byte>, back: seq<byte>, whole: seq<byte>)
    requires front + back == whole
    ensures front == whole[..|front|] && back == whole[|front|..]
  {
  }

  /** The host sends s to a freshly started port; the pump runs once and the
      application then reads |s| bytes: it receives exactly s, even when s is
      longer than the buffer, because each read refills from the endpoint. */
  method Deliver(s: seq<byte>) returns (got: seq<byte>)
    ensures got == s
  {
    var rx, ep, released := Accept(Initial(), s);
    var p := Port(rx, ep);
    got, p := ReadMany(p, |s|);
  }
}
