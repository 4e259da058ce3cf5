/**
  How the tick server turns the datagrams waiting on its socket into the messages it queues: length
  and operation code in network order, then the payload, reassembled in a fixed buffer.

  The buffered reader takes the next datagram whenever it has handed out the last one, so a message
  may be pieced together from several datagrams, a datagram without bytes reads as the end of the
  input, and nothing compares the announced length with the size of the buffer.
 */
module TickFrame {

  type Byte = b: int | 0 <= b < 256

  const TICK_MAX_MESSAGE := 10240
  const RIO_BUFSIZE := 8192
  const COMMAND_HEADER_LENGTH := 4
  const COMMAND_CODE_LENGTH := 4

  /** Four bytes in network order as an unsigned number, and back. */
  function FromNetwork(b: seq<Byte>): nat
    requires |b| == 4
  {
    var b0: int, b1: int, b2: int := b[0], b[1], b[2];
    b0 * 0x100_0000 + b1 * 0x1_0000 + b2 * 0x100 + b[3]
  }

  function ToNetwork(u: nat): (b: seq<Byte>)
    requires u < 0x1_0000_0000
    ensures |b| == 4
  {
    [u / 0x100_0000, u / 0x1_0000 % 0x100, u / 0x100 % 0x100, u % 0x100]
  }

  lemma NetworkRoundTrip(b: seq<Byte>)
    requires |b| == 4
    ensures FromNetwork(b) < 0x1_0000_0000 && ToNetwork(FromNetwork(b)) == b
  {
    var u := FromNetwork(b);
    var b0: int, b1: int := b[0], b[1];
    assert u / 0x100 == b0 * 0x1_0000 + b1 * 0x100 + b[2];
    assert u / 0x1_0000 == b0 * 0x100 + b1;
  }

  /** A 32-bit pattern read as a signed number, and back. */
  function Signed(u: nat): int
    requires u < 0x1_0000_0000
  {
    if u < 0x8000_0000 then u else u - 0x1_0000_0000
  }

  function Unsigned(i: int): nat
    requires -0x8000_0000 <= i < 0x8000_0000
  {
    if i >= 0 then i else i + 0x1_0000_0000
  }

  /** The length that the first four bytes announce. */
  function Announced(d: seq<Byte>): int
    requires |d| >= 4
  {
    NetworkRoundTrip(d[..4]);
    Signed(FromNetwork(d[..4]))
  }

  // ----- the buffered reader -----

  type Datagram = seq<Byte>

  /** What a read delivers of a datagram; the rest is lost. */
  function Delivered(d: Datagram): Datagram {
    if |d| <= RIO_BUFSIZE then d else d[..RIO_BUFSIZE]
  }

  /** Why a read of several bytes stops: it has them, it met a datagram without bytes, or nothing waits. */
  datatype Stop = Full | EndOfInput | WouldBlock

  datatype Taken = Taken(bytes: seq<Byte>, stop: Stop, buffered: seq<Byte>, queue: seq<Datagram>)

  /** Read `n` bytes with `buffered` left in the reader and `queue` waiting on the socket. */
  function Take(buffered: seq<Byte>, queue: seq<Datagram>, n: nat): (t: Taken)
    ensures |t.bytes| <= n && (t.stop.Full? <==> |t.bytes| == n)
    ensures |t.queue| <= |queue|
    decreases |queue|, n
  {
    if n == 0 then Taken([], Full, buffered, queue)
    else if buffered != [] then
      var k := if n < |buffered| then n else |buffered|;
      var t := Take(buffered[k..], queue, n - k);
      t.(bytes := buffered[..k] + t.bytes)
    else if queue == [] then Taken([], WouldBlock, [], [])
    else if queue[0] == [] then Taken([], EndOfInput, [], queue[1..])
    else Take(Delivered(queue[0]), queue[1..], n)
  }

  /** The bytes that wait up to the first datagram without any. */
  function Stream(queue: seq<Datagram>): seq<Byte> {
    if queue == [] || queue[0] == [] then [] else Delivered(queue[0]) + Stream(queue[1..])
  }

  /** What a read of `n` bytes should take when the bytes `all` wait, followed by an end or not. */
  ghost predicate TakesPrefix(t: Taken, n: nat, all: seq<Byte>, ends: bool) {
    if n <= |all| then
      t.stop.Full? && t.bytes == all[..n] && t.buffered + Stream(t.queue) == all[n..] && ([] in t.queue <==> ends)
    else
      t.bytes == all && t.stop == if ends then EndOfInput else WouldBlock
  }

  /** Reading takes a prefix of the waiting stream, across datagrams, and leaves the rest of it. */
  lemma {:induction false} TakeIsPrefix(buffered: seq<Byte>, queue: seq<Datagram>, n: nat)
    ensures TakesPrefix(Take(buffered, queue, n), n, buffered + Stream(queue), [] in queue)
    decreases |queue|, n
  {
    hide Take, TakesPrefix, Stream;
    if n == 0 || (buffered == [] && (queue == [] || queue[0] == [])) {
      TakeEdge(buffered, queue, n);
    } else if buffered != [] {
      var k := if n < |buffered| then n else |buffered|;
      TakeIsPrefix(buffered[k..], queue, n - k);
      TakeBuffered(buffered, queue, n, k);
      PrefixBehind(Take(buffered[k..], queue, n - k), n - k, buffered[..k], buffered[k..] + Stream(queue), [] in queue);
      assert buffered[..k] + (buffered[k..] + Stream(queue)) == buffered + Stream(queue);
    } else {
      TakeIsPrefix(Delivered(queue[0]), queue[1..], n);
      TakeRefill(queue, n);
    }
  }

  lemma TakeEdge(buffered: seq<Byte>, queue: seq<Datagram>, n: nat)
    requires n == 0 || (buffered == [] && (queue == [] || queue[0] == []))
    ensures TakesPrefix(Take(buffered, queue, n), n, buffered + Stream(queue), [] in queue)
  {
  }

  lemma TakeBuffered(buffered: seq<Byte>, queue: seq<Datagram>, n: nat, k: nat)
    requires n > 0 && buffered != [] && k == if n < |buffered| then n else |buffered|
    ensures var t := Take(buffered[k..], queue, n - k);
            Take(buffered, queue, n) == t.(bytes := buffered[..k] + t.bytes)
  {
  }

  lemma TakeRefill(queue: seq<Datagram>, n: nat)
    requires n > 0 && queue != [] && queue[0] != []
    ensures Take([], queue, n) == Take(Delivered(queue[0]), queue[1..], n)
    ensures [] + Stream(queue) == Delivered(queue[0]) + Stream(queue[1..])
    ensures [] in queue <==> [] in queue[1..]
  {
  }

  lemma PrefixBehind(t: Taken, n: nat, first: seq<Byte>, rest: seq<Byte>, ends: bool)
    requires TakesPrefix(t, n, rest, ends)
    ensures TakesPrefix(t.(bytes := first + t.bytes), |first| + n, first + rest, ends)
  {
    hide Stream;
    if n <= |rest| {
      assert (first + rest)[..|first| + n] == first + rest[..n];
      assert (first + rest)[|first| + n..] == rest[n..];
    }
  }

  /** How a read of the reader ends: with a count, with an error, or past the end of the target. */
  datatype Read = Got(count: nat) | Failed | PastEnd

  /** `after` is `was` with `bytes` written over it from `at` on. */
  predicate Written(was: seq<Byte>, at: nat, bytes: seq<Byte>, after: seq<Byte>) {
    at + |bytes| <= |was| && after == was[..at] + bytes + was[at + |bytes|..]
  }

  class Reader {
    var buffered: seq<Byte>
    var queue: seq<Datagram>

    constructor (waiting: seq<Datagram>)
      ensures buffered == [] && queue == waiting
    {
      buffered, queue := [], waiting;
    }

    /** Have bytes in the buffer, if need be by taking the next datagram. */
    method Refill() returns (r: Read)
      modifies this
      ensures r.Failed? ==> old(buffered) == [] && old(queue) == [] && unchanged(this)
      ensures r == Got(0) ==> old(buffered) == [] && old(queue) != [] && old(queue[0]) == []
                              && buffered == [] && queue == old(queue[1..])
      ensures r == Got(1) ==> buffered != []
      ensures r == Got(1) ==> forall n: nat | n > 0 :: Take(buffered, queue, n) == Take(old(buffered), old(queue), n)
      ensures r in {Failed, Got(0), Got(1)}
    {
      if buffered == [] {
        if queue == [] {
          return Failed;
        }
        buffered, queue := Delivered(queue[0]), queue[1..];
        if buffered == [] {
          return Got(0);
        }
      }
      r := Got(1);
    }

    /**
      Copy some of `n` bytes into `buf` from `at` on.  The source copies without looking at the
      size of `buf`; here the copy that would leave it ends the call.
     */
    method ReadSome(n: nat, buf: array<Byte>, at: nat) returns (r: Read)
      requires n > 0 && at <= buf.Length
      modifies this, buf
      ensures var t := Take(old(buffered), old(queue), n);
              match r
              case Failed => t == Taken([], WouldBlock, buffered, queue) && buf[..] == old(buf[..])
              case PastEnd => at + |t.bytes| > buf.Length
              case Got(k) =>
                && k <= n && at + k <= buf.Length && k <= |t.bytes|
                && (k == 0 ==> t == Taken([], EndOfInput, buffered, queue))
                && (k > 0 ==> Take(buffered, queue, n - k) == t.(bytes := t.bytes[k..]))
                && Written(old(buf[..]), at, t.bytes[..k], buf[..])
    {
      hide Take, Delivered;
      ghost var t := Take(buffered, queue, n);
      TakeFromSocket(queue, n);
      r := Refill();
      if r != Got(1) {
        return;
      }
      var k := if n < |buffered| then n else |buffered|;
      TakeBuffered(buffered, queue, n, k);
      if at + k > buf.Length {
        return PastEnd;
      }
      CopyInto(buffered[..k], buf, at);
      buffered := buffered[k..];
      r := Got(k);
    }

    /** Copy up to `n` bytes into `buf` from `at` on, datagram by datagram. */
    method ReadBytes(n: nat, buf: array<Byte>, at: nat) returns (r: Read)
      requires at <= buf.Length
      modifies this, buf
      ensures var t := Take(old(buffered), old(queue), n);
              if at + |t.bytes| > buf.Length then r == PastEnd
              else
                && buffered == t.buffered && queue == t.queue
                && r == (if t.stop.WouldBlock? then Failed else Got(|t.bytes|))
                && Written(old(buf[..]), at, t.bytes, buf[..])
    {
      hide Take, Written;
      ghost var was, t := buf[..], Take(buffered, queue, n);
      var done := 0;
      WrittenNothing(was, at);
      assert t.bytes[..0] == [];
      while done < n
        invariant done <= n && at + done <= buf.Length && done <= |t.bytes|
        invariant Take(buffered, queue, n - done) == t.(bytes := t.bytes[done..])
        invariant Written(was, at, t.bytes[..done], buf[..])
      {
        ghost var before := buf[..];
        r := ReadSome(n - done, buf, at + done);
        if !r.Got? {
          assert r.Failed? ==> t.bytes[..done] == t.bytes;
          return;
        }
        WrittenOn(was, before, buf[..], t.bytes, at, done, r.count);
        if r.count == 0 {
          break;
        }
        done := done + r.count;
      }
      TakeNothing(buffered, queue);
      assert t.bytes[..done] == t.bytes;
      r := Got(done);
    }
  }

  lemma TakeNothing(buffered: seq<Byte>, queue: seq<Datagram>)
    ensures Take(buffered, queue, 0) == Taken([], Full, buffered, queue)
  {
  }

  lemma TakeFromSocket(queue: seq<Datagram>, n: nat)
    requires n > 0
    ensures queue == [] ==> Take([], queue, n) == Taken([], WouldBlock, [], [])
    ensures queue != [] && queue[0] == [] ==>
              Delivered([]) == [] && Take([], queue, n) == Taken([], EndOfInput, [], queue[1..])
    ensures queue != [] && queue[0] != [] ==>
              Delivered(queue[0]) != [] && Take([], queue, n) == Take(Delivered(queue[0]), queue[1..], n)
  {
  }

  lemma WrittenNothing(was: seq<Byte>, at: nat)
    requires at <= |was|
    ensures Written(was, at, [], was)
  {
  }

  /** Writing goes on with `k` more bytes behind the first `done`. */
  lemma WrittenOn(was: seq<Byte>, before: seq<Byte>, after: seq<Byte>, bytes: seq<Byte>, at: nat, done: nat, k: nat)
    requires done + k <= |bytes| && Written(was, at, bytes[..done], before)
    requires Written(before, at + done, bytes[done..][..k], after)
    ensures Written(was, at, bytes[..done + k], after)
  {
    assert bytes[..done + k] == bytes[..done] + bytes[done..][..k];
  }

  method CopyInto(bytes: seq<Byte>, buf: array<Byte>, at: nat)
    requires at + |bytes| <= buf.Length
    modifies buf
    ensures buf[..] == old(buf[..at]) + bytes + old(buf[at + |bytes|..])
  {
    for i := 0 to |bytes|
      invariant forall j :: 0 <= j < i ==> buf[at + j] == bytes[j]
      invariant forall j :: 0 <= j < buf.Length && !(at <= j < at + i) ==> buf[j] == old(buf[j])
    {
      buf[at + i] := bytes[i];
    }
    assert buf[at..at + |bytes|] == bytes;
    assert buf[..] == buf[..at] + buf[at..at + |bytes|] + buf[at + |bytes|..];
  }

  // ----- one readable event -----

  type Word = w: seq<Byte> | |w| == 4 witness [0, 0, 0, 0]

  /** What the buffers of the two word reads hold before them: they are never initialised. */
  datatype Stack = Stack(header: Word, code: Word)

  /** A word of which only the leading bytes arrived. */
  function WordOf(bytes: seq<Byte>, junk: Word): (w: int)
    requires |bytes| <= 4
    ensures -0x8000_0000 <= w < 0x8000_0000
  {
    NetworkRoundTrip((bytes + junk[|bytes|..])[..4]);
    Announced(bytes + junk[|bytes|..])
  }

  datatype Event = Dropped | Queued(message: seq<Byte>) | Overrun

  datatype Served = Served(event: Event, left: seq<Datagram>)

  /** A read counts as successful unless it met an empty socket or brought nothing. */
  predicate Accepted(t: Taken) {
    !t.stop.WouldBlock? && t.bytes != []
  }

  /** What the server makes of the datagrams that wait, and those it leaves waiting. */
  function Serve(queue: seq<Datagram>, stack: Stack): Served {
    var h := Take([], queue, COMMAND_HEADER_LENGTH);
    var c := Take(h.buffered, h.queue, COMMAND_CODE_LENGTH);
    if !Accepted(h) then Served(Dropped, h.queue)
    else if !Accepted(c) then Served(Dropped, c.queue)
    else ServePacket(c.buffered, c.queue, WordOf(h.bytes, stack.header), WordOf(c.bytes, stack.code))
  }

  function ServePacket(buffered: seq<Byte>, queue: seq<Datagram>, length: int, code: int): Served
    requires -0x8000_0000 <= code < 0x8000_0000
  {
    if length < 4 then Served(Dropped, queue)
    else
      var b := Take(buffered, queue, length - 4);
      if 8 + |b.bytes| > TICK_MAX_MESSAGE then Served(Overrun, b.queue)
      else if !Accepted(b) then Served(Dropped, b.queue)
      else Served(Queued(ToNetwork(4 + |b.bytes|) + ToNetwork(Unsigned(code)) + b.bytes), b.queue)
  }

  class TickServer {
    var headerLen: int
    var opcode: int
    var rbufLen: int
    const rbuf: array<Byte>

    constructor ()
      ensures fresh(rbuf) && rbuf.Length == TICK_MAX_MESSAGE
    {
      headerLen, opcode, rbufLen := 0, 0, 0;
      rbuf := new Byte[TICK_MAX_MESSAGE];
    }

    /** Read the four bytes of a header or an operation code over whatever the buffer holds. */
    method ReadWord(rio: Reader, junk: Word) returns (ok: bool, word: int)
      modifies rio
      ensures var t := Take(old(rio.buffered), old(rio.queue), 4);
              && rio.buffered == t.buffered && rio.queue == t.queue
              && (ok <==> Accepted(t)) && (ok ==> word == WordOf(t.bytes, junk))
    {
      hide Take;
      var buf := new Byte[1024](i => if 0 <= i < 4 then junk[i] else 0);
      assert buf[..4] == junk;
      ghost var t := Take(rio.buffered, rio.queue, 4);
      ghost var was := buf[..];
      var r := rio.ReadBytes(4, buf, 0);
      if r == Failed || r == Got(0) {
        return false, 0;
      }
      assert buf[..4] == t.bytes + junk[|t.bytes|..] by {
        assert was[|t.bytes|..][..4 - |t.bytes|] == junk[|t.bytes|..];
      }
      assert (t.bytes + junk[|t.bytes|..])[..4] == buf[..4];
      NetworkRoundTrip(buf[..4]);
      return true, Signed(FromNetwork(buf[..4]));
    }

    /** Read the payload into the buffer behind the space for header and code. */
    method ReadPacket(rio: Reader) returns (r: Read)
      requires rbuf.Length == TICK_MAX_MESSAGE
      modifies this`rbufLen, rio, rbuf
      ensures headerLen < 4 ==> r.Failed? && rio.queue == old(rio.queue)
      ensures headerLen >= 4 ==>
                var t := Take(old(rio.buffered), old(rio.queue), headerLen - 4);
                if 8 + |t.bytes| > TICK_MAX_MESSAGE then r.PastEnd?
                else
                  && rio.queue == t.queue
                  && r == (if Accepted(t) then Got(|t.bytes|) else Failed)
                  && (Accepted(t) ==> rbufLen == |t.bytes| && rbuf[8..8 + rbufLen] == t.bytes)
    {
      hide Take;
      if headerLen < 4 {
        return Failed;
      }
      r := rio.ReadBytes(headerLen - 4, rbuf, COMMAND_HEADER_LENGTH + COMMAND_CODE_LENGTH);
      if r == Got(0) {
        return Failed;
      }
      if r.Got? {
        rbufLen := r.count;
      }
    }

    method StoreWord(u: nat, at: nat)
      requires u < 0x1_0000_0000 && at + 4 <= rbuf.Length
      modifies rbuf
      ensures rbuf[at..at + 4] == ToNetwork(u)
      ensures forall i :: 0 <= i < rbuf.Length && !(at <= i < at + 4) ==> rbuf[i] == old(rbuf[i])
    {
      var b := ToNetwork(u);
      rbuf[at], rbuf[at + 1], rbuf[at + 2], rbuf[at + 3] := b[0], b[1], b[2], b[3];
    }

    /** Put the length of code and payload, and the code, in front of the payload. */
    method BuildObuf()
      requires rbuf.Length == TICK_MAX_MESSAGE && 0 <= rbufLen <= TICK_MAX_MESSAGE - 8
      requires -0x8000_0000 <= opcode < 0x8000_0000
      modifies rbuf
      ensures rbuf[..8 + rbufLen] ==
                ToNetwork(COMMAND_CODE_LENGTH + rbufLen) + ToNetwork(Unsigned(opcode)) + old(rbuf[8..8 + rbufLen])
    {
      hide ToNetwork;
      ghost var payload := rbuf[8..8 + rbufLen];
      StoreWord(COMMAND_CODE_LENGTH + rbufLen, 0);
      ghost var first := rbuf[0..4];
      assert rbuf[8..8 + rbufLen] == payload;
      StoreWord(Unsigned(opcode), COMMAND_CODE_LENGTH);
      assert rbuf[0..4] == first;
      assert rbuf[8..8 + rbufLen] == payload;
      assert rbuf[..8 + rbufLen] == rbuf[0..4] + rbuf[4..8] + rbuf[8..8 + rbufLen];
    }

    /** One readable event with the datagrams `waiting` on the socket; `left` still wait after it. */
    method Receive(waiting: seq<Datagram>, stack: Stack) returns (event: Event, left: seq<Datagram>)
      requires rbuf.Length == TICK_MAX_MESSAGE
      modifies this, rbuf
      ensures event == Serve(waiting, stack).event
      ensures !event.Overrun? ==> left == Serve(waiting, stack).left
    {
      hide Take, WordOf;
      var rio := new Reader(waiting);
      var ok;
      ok, headerLen := ReadWord(rio, stack.header);
      if !ok {
        return Dropped, rio.queue;
      }
      ok, opcode := ReadWord(rio, stack.code);
      if !ok {
        return Dropped, rio.queue;
      }
      var r := ReadPacket(rio);
      left := rio.queue;
      if r.PastEnd? {
        return Overrun, left;
      }
      if r.Failed? {
        return Dropped, left;
      }
      BuildObuf();
      event := Queued(rbuf[..COMMAND_HEADER_LENGTH + COMMAND_CODE_LENGTH + rbufLen]);
    }
  }

  // ----- what an event amounts to -----

  /** A whole frame with a payload. */
  predicate IsFrame(a: seq<Byte>) {
    |a| >= 8 && Announced(a) > 4 && |a| >= 4 + Announced(a)
  }

  /** How many payload bytes an event copies: as many as announced, or all that wait. */
  function Copied(a: seq<Byte>): int
    requires |a| >= 8
  {
    if Announced(a) - 4 < |a| - 8 then Announced(a) - 4 else |a| - 8
  }

  /** The event as a function of the waiting stream, and of whether it ends in an empty datagram. */
  function StreamEvent(a: seq<Byte>, ends: bool): Event
    requires |a| >= 8
  {
    if Announced(a) <= 4 then Dropped
    else if Copied(a) > TICK_MAX_MESSAGE - 8 then Overrun
    else if IsFrame(a) then Queued(a[..4 + Announced(a)])
    else if ends && |a| > 8 then Queued(ToNetwork(|a| - 4) + a[4..])
    else Dropped
  }

  /** The datagrams behind the first one without bytes. */
  function Behind(queue: seq<Datagram>): seq<Datagram> {
    if queue == [] then [] else if queue[0] == [] then queue[1..] else Behind(queue[1..])
  }

  /** The bytes that an event works on, unless it ends with one of the first two words. */
  datatype Seen = Short | Seen(bytes: seq<Byte>, ends: bool)

  /**
    The waiting stream, in which a word cut short by an empty datagram is completed from the
    uninitialised buffer it is read into and the stream goes on behind that datagram.
   */
  function SeenBy(queue: seq<Datagram>, stack: Stack): (v: Seen)
    ensures v.Seen? ==> |v.bytes| >= 8
  {
    var a := Stream(queue);
    if |a| >= 4 then SeenCode(a, queue, stack.code)
    else if a == [] || [] !in queue then Short
    else SeenCode(a + stack.header[|a|..] + Stream(Behind(queue)), Behind(queue), stack.code)
  }

  function SeenCode(a: seq<Byte>, queue: seq<Datagram>, code: Word): (v: Seen)
    requires |a| >= 4
    ensures v.Seen? ==> |v.bytes| >= 8
  {
    if |a| >= 8 then Seen(a, [] in queue)
    else if |a| == 4 || [] !in queue then Short
    else Seen(a + code[|a| - 4..] + Stream(Behind(queue)), [] in Behind(queue))
  }

  /**
    The message is the frame at the head of the waiting stream, byte for byte and wherever the
    datagrams end.  A frame cut short by an empty datagram is passed on with its length corrected;
    one that is cut short by an empty socket is dropped, as is everything read for it.
   */
  lemma ServeStream(queue: seq<Datagram>, stack: Stack)
    ensures var v := SeenBy(queue, stack);
            Serve(queue, stack).event == if v.Short? then Dropped else StreamEvent(v.bytes, v.ends)
  {
    hide Take, Stream, WordOf, ServePacket, StreamEvent, Behind;
    var a := Stream(queue);
    assert [] + a == a;
    var h := Take([], queue, 4);
    TakeIsPrefix([], queue, 4);
    if |a| >= 4 {
      TakeWithin([], queue, 4);
      assert a == a[..4] + a[4..] && h.bytes + stack.header[4..] == a[..4];
      ServeCode(h, stack);
    } else if a != [] && [] in queue {
      TakeEnds([], queue, 4);
      assert [] + Stream(Behind(queue)) == Stream(Behind(queue));
      ServeCode(h, stack);
    }
  }

  lemma ServeCode(h: Taken, stack: Stack)
    requires |h.bytes| <= 4 && Accepted(h)
    ensures var c := Take(h.buffered, h.queue, 4);
            var all := h.bytes + stack.header[|h.bytes|..] + (h.buffered + Stream(h.queue));
            var v := SeenCode(all, h.queue, stack.code);
            (if Accepted(c)
             then ServePacket(c.buffered, c.queue, WordOf(h.bytes, stack.header), WordOf(c.bytes, stack.code)).event
             else Dropped) == if v.Short? then Dropped else StreamEvent(v.bytes, v.ends)
  {
    hide Take, Stream, ServePacket, StreamEvent;
    var first, all := h.bytes + stack.header[|h.bytes|..], h.buffered + Stream(h.queue);
    var c := Take(h.buffered, h.queue, 4);
    TakeIsPrefix(h.buffered, h.queue, 4);
    if |all| >= 4 {
      assert c.bytes + stack.code[4..] == all[..4];
      PacketOfStream(first, all[..4], c);
      assert first + all[..4] + all[4..] == first + all;
    } else if all != [] && [] in h.queue {
      TakeEnds(h.buffered, h.queue, 4);
      assert [] + Stream(Behind(h.queue)) == Stream(Behind(h.queue));
      PacketOfStream(first, all + stack.code[|all|..], c);
      assert first + (all + stack.code[|all|..]) == first + all + stack.code[|all|..];
    }
  }

  lemma {:induction false} TakeWithin(buffered: seq<Byte>, queue: seq<Datagram>, n: nat)
    requires n <= |buffered + Stream(queue)|
    ensures Behind(Take(buffered, queue, n).queue) == Behind(queue)
    decreases |queue|, n
  {
    if n <= |buffered| {
      TakeInside(buffered, queue, n);
    } else if buffered != [] {
      TakeBuffered(buffered, queue, n, |buffered|);
      TakeWithin([], queue, n - |buffered|);
    } else {
      TakeRefill(queue, n);
      TakeWithin(Delivered(queue[0]), queue[1..], n);
    }
  }

  /** A read that meets a datagram without bytes goes on behind it next time. */
  lemma {:induction false} TakeEnds(buffered: seq<Byte>, queue: seq<Datagram>, n: nat)
    requires n > |buffered + Stream(queue)| && [] in queue
    ensures var t := Take(buffered, queue, n);
            t.buffered == [] && t.queue == Behind(queue)
    decreases |queue|, n
  {
    if buffered != [] {
      TakeBuffered(buffered, queue, n, |buffered|);
      TakeEnds([], queue, n - |buffered|);
    } else if queue[0] != [] {
      TakeRefill(queue, n);
      TakeEnds(Delivered(queue[0]), queue[1..], n);
    }
  }

  lemma TwoWords(a: seq<Byte>, stack: Stack)
    requires |a| >= 8
    ensures WordOf(a[..4], stack.header) == Announced(a) && WordOf(a[4..][..4], stack.code) == Announced(a[4..])
  {
    assert (a[..4] + stack.header[4..])[..4] == a[..4];
    assert (a[4..][..4] + stack.code[4..])[..4] == a[4..][..4];
  }

  lemma WordRoundTrip(w: Word)
    ensures -0x8000_0000 <= Announced(w) < 0x8000_0000 && ToNetwork(Unsigned(Announced(w))) == w
    ensures Announced(w) >= 0 ==> Unsigned(Announced(w)) == Announced(w)
  {
    assert w[..4] == w;
    NetworkRoundTrip(w);
  }

  lemma PacketOfStream(header: Word, code: Word, c: Taken)
    ensures var a := header + code + (c.buffered + Stream(c.queue));
            && -0x8000_0000 <= Announced(code) < 0x8000_0000
            && ServePacket(c.buffered, c.queue, Announced(header), Announced(code)).event ==
                 StreamEvent(a, [] in c.queue)
  {
    hide Take, Stream, FromNetwork, ToNetwork, Signed, Unsigned;
    var payload := c.buffered + Stream(c.queue);
    var a := header + code + payload;
    assert a[..4] == header[..4] == header && a[8..] == payload && code[..4] == code;
    WordRoundTrip(code);
    WordRoundTrip(header);
    var l := Announced(header);
    assert Announced(a) == l;
    if l >= 4 {
      TakeIsPrefix(c.buffered, c.queue, l - 4);
      if IsFrame(a) {
        assert header + code + payload[..l - 4] == a[..4 + l];
      } else {
        assert a[4..] == code + payload;
      }
    }
  }

  /**
    The copy leaves the buffer exactly if the smaller of the announced payload and the bytes that
    wait behind header and code is larger than the room for it.
   */
  lemma OverrunIff(queue: seq<Datagram>, stack: Stack)
    ensures var v := SeenBy(queue, stack);
            Serve(queue, stack).event.Overrun? <==> v.Seen? && Copied(v.bytes) > TICK_MAX_MESSAGE - 8
  {
    hide Serve, SeenBy;
    ServeStream(queue, stack);
  }

  /** Two datagrams of the largest size suffice. */
  lemma OverrunHappens(stack: Stack)
    ensures var first := [0, 0, 0x4E, 0x20, 0, 0, 0, 1] + seq(RIO_BUFSIZE - 8, _ => 0);
            var second := seq(RIO_BUFSIZE, _ => 0);
            Serve([first, second], stack).event == Overrun
  {
    var first: Datagram := [0, 0, 0x4E, 0x20, 0, 0, 0, 1] + seq(RIO_BUFSIZE - 8, _ => 0);
    var second: Datagram := seq(RIO_BUFSIZE, _ => 0);
    var queue := [first, second];
    assert queue[1..] == [second] && [second][1..] == [];
    var a := Stream(queue);
    assert a == first + second by { assert Stream([second]) == second; }
    assert a[..4] == [0, 0, 0x4E, 0x20];
    assert Announced(a) == 20000;
    OverrunIff(queue, stack);
  }

  // ----- an event for each datagram -----

  /** A datagram that needs no bytes of the next one. */
  predicate Whole(d: Datagram) {
    var e := Delivered(d);
    e == [] || (|e| >= 8 && (Announced(e) <= 4 || IsFrame(e)))
  }

  lemma TakeInside(buffered: seq<Byte>, queue: seq<Datagram>, n: nat)
    requires n <= |buffered|
    ensures Take(buffered, queue, n) == Taken(buffered[..n], Full, buffered[n..], queue)
  {
    if 0 < n {
      TakeNothing(buffered[n..], queue);
      TakeBuffered(buffered, queue, n, n);
    }
  }

  /** A read that needs more than the reader has takes at least one datagram. */
  lemma TakeBeyond(buffered: seq<Byte>, queue: seq<Datagram>, n: nat)
    requires n > |buffered| && queue != []
    ensures |Take(buffered, queue, n).queue| < |queue|
  {
    if buffered != [] {
      TakeBuffered(buffered, queue, n, |buffered|);
    }
  }

  /** Every event takes at least one datagram. */
  lemma ServeProgress(queue: seq<Datagram>, stack: Stack)
    requires queue != []
    ensures |Serve(queue, stack).left| < |queue|
  {
    hide WordOf;
    TakeBeyond([], queue, 4);
  }

  /** A whole datagram is served alone: nothing behind it is touched, and its frame is the message. */
  lemma ServeWhole(d: Datagram, rest: seq<Datagram>, stack: Stack)
    requires Whole(d)
    ensures var e := Delivered(d);
            Serve([d] + rest, stack) == Served(if IsFrame(e) then Queued(e[..4 + Announced(e)]) else Dropped, rest)
  {
    hide Take, WordOf;
    var e, queue := Delivered(d), [d] + rest;
    assert queue[1..] == rest;
    TakeFromSocket(queue, 4);
    if e != [] {
      TakeInside(e, rest, 4);
      TakeInside(e[4..], rest, 4);
      assert e[4..][4..] == e[8..];
      TwoWords(e, stack);
      NetworkRoundTrip(e[4..][..4]);
      if Announced(e) >= 4 {
        PacketOfWhole(e, rest);
      }
    }
  }

  lemma PacketOfWhole(e: seq<Byte>, rest: seq<Datagram>)
    requires 8 <= |e| <= RIO_BUFSIZE && (Announced(e) == 4 || IsFrame(e))
    ensures -0x8000_0000 <= Announced(e[4..]) < 0x8000_0000
    ensures ServePacket(e[8..], rest, Announced(e), Announced(e[4..])) ==
            Served(if IsFrame(e) then Queued(e[..4 + Announced(e)]) else Dropped, rest)
  {
    hide Take;
    var l := Announced(e);
    NetworkRoundTrip(e[..4]);
    NetworkRoundTrip(e[4..][..4]);
    TakeInside(e[8..], rest, l - 4);
    assert ToNetwork(Unsigned(Announced(e[4..]))) == e[4..][..4];
    if l > 4 {
      assert ToNetwork(l) + e[4..][..4] + e[8..][..l - 4] == e[..4 + l];
    }
  }

  /** Any other datagram takes bytes of the one behind it. */
  lemma ServePartial(d: Datagram, rest: seq<Datagram>, stack: Stack)
    requires !Whole(d) && rest != []
    ensures |Serve([d] + rest, stack).left| < |rest|
  {
    hide Take, WordOf;
    var e, queue := Delivered(d), [d] + rest;
    assert queue[1..] == rest;
    TakeFromSocket(queue, 4);
    if |e| < 4 {
      TakeBeyond(e, rest, 4);
    } else if |e| < 8 {
      TakeInside(e, rest, 4);
      TakeBeyond(e[4..], rest, 4);
    } else {
      TakeInside(e, rest, 4);
      TakeInside(e[4..], rest, 4);
      assert e[4..][4..] == e[8..];
      TwoWords(e, stack);
      TakeBeyond(e[8..], rest, Announced(e) - 4);
    }
  }

  /** Exactly the whole datagrams are served without a look at what is queued behind them. */
  lemma ServedAloneIff(d: Datagram, stack: Stack)
    ensures Whole(d) <==> forall rest :: Serve([d] + rest, stack).left == rest
  {
    hide Serve, Whole;
    if Whole(d) {
      forall rest ensures Serve([d] + rest, stack).left == rest { ServeWhole(d, rest, stack); }
    } else {
      ServePartial(d, [[]], stack);
    }
  }

  // ----- the server loop -----

  datatype Run = Run(messages: seq<seq<Byte>>, overrun: bool)

  /** All events until nothing waits, or until one leaves the buffer. */
  function ServeAll(queue: seq<Datagram>, stacks: nat -> Stack, k: nat): Run
    decreases |queue|
  {
    if queue == [] then Run([], false)
    else
      var v := Serve(queue, stacks(k));
      ServeProgress(queue, stacks(k));
      if v.event.Overrun? then Run([], true)
      else
        var rest := ServeAll(v.left, stacks, k + 1);
        if v.event.Queued? then rest.(messages := [v.event.message] + rest.messages) else rest
  }

  /** The frame that a datagram starts with, if it has one. */
  function FrameOf(d: Datagram): seq<seq<Byte>> {
    var e := Delivered(d);
    if IsFrame(e) then [e[..4 + Announced(e)]] else []
  }

  /** The frame of each datagram that has one. */
  function Frames(queue: seq<Datagram>): seq<seq<Byte>> {
    if queue == [] then [] else FrameOf(queue[0]) + Frames(queue[1..])
  }

  /** Whole datagrams never overrun the buffer, and each frame becomes one message, in order. */
  lemma {:induction false} FramesInOrder(queue: seq<Datagram>, stacks: nat -> Stack, k: nat)
    requires forall i :: 0 <= i < |queue| ==> Whole(queue[i])
    ensures ServeAll(queue, stacks, k) == Run(Frames(queue), false)
    decreases |queue|
  {
    if queue != [] {
      hide Serve, Whole;
      assert queue == [queue[0]] + queue[1..];
      ServeWhole(queue[0], queue[1..], stacks(k));
      FramesInOrder(queue[1..], stacks, k + 1);
    }
  }

  method RunProcess(waiting: seq<Datagram>, stacks: nat -> Stack) returns (run: Run)
    ensures run == ServeAll(waiting, stacks, 0)
    ensures (forall i :: 0 <= i < |waiting| ==> Whole(waiting[i])) ==> run == Run(Frames(waiting), false)
  {
    hide Serve, Whole, ServeAll, Frames;
    if forall i :: 0 <= i < |waiting| ==> Whole(waiting[i]) {
      FramesInOrder(waiting, stacks, 0);
    }
    var server := new TickServer();
    var queue, messages, k := waiting, [], 0;
    while queue != []
      invariant var rest := ServeAll(queue, stacks, k);
                ServeAll(waiting, stacks, 0) == rest.(messages := messages + rest.messages)
      decreases |queue|
    {
      ServeProgress(queue, stacks(k));
      ServeAllStep(queue, stacks, k);
      var event, left := server.Receive(queue, stacks(k));
      if event.Overrun? {
        return Run(messages, true);
      }
      if event.Queued? {
        messages := messages + [event.message];
      }
      queue, k := left, k + 1;
    }
    ServeAllNone(stacks, k);
    run := Run(messages, false);
  }

  lemma ServeAllNone(stacks: nat -> Stack, k: nat)
    ensures ServeAll([], stacks, k) == Run([], false)
  {
  }

  lemma ServeAllStep(queue: seq<Datagram>, stacks: nat -> Stack, k: nat)
    requires queue != []
    ensures var v := Serve(queue, stacks(k));
            if v.event.Overrun? then ServeAll(queue, stacks, k) == Run([], true)
            else
              var rest := ServeAll(v.left, stacks, k + 1);
              ServeAll(queue, stacks, k) ==
                if v.event.Queued? then rest.(messages := [v.event.message] + rest.messages) else rest
  {
    hide Serve;
  }
}
