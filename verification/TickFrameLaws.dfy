/** What the bytes of a frame mean on the wire, with the numbers of the protocol written out. */
module TickFrameLaws {
  import opened TickFrame

  // ----- network order -----

  /** Bytes as the digits of a number, most significant first. */
  function Base256(b: seq<Byte>): nat {
    if b == [] then 0 else 256 * Base256(b[..|b| - 1]) + b[|b| - 1]
  }

  lemma NetworkIsPositional(b: seq<Byte>)
    requires |b| == 4
    ensures FromNetwork(b) == Base256(b)
  {
    assert b[..3][..2] == b[..2] && b[..2][..1] == b[..1] && b[..1][..0] == [];
    assert b[..3][2] == b[2] && b[..2][1] == b[1] && b[..1][0] == b[0];
    assert Base256(b[..1]) == b[0];
    assert Base256(b[..2]) == 256 * Base256(b[..1]) + b[1];
    assert Base256(b[..3]) == 256 * Base256(b[..2]) + b[2];
  }

  /** A number below 65536 is its two last bytes. */
  lemma SmallWord(hi: Byte, lo: Byte)
    ensures FromNetwork([0, 0, hi, lo]) == 256 * hi + lo && ToNetwork(256 * hi + lo) == [0, 0, hi, lo]
  {
    var h: int, l: int := hi, lo;
    var u := 256 * h + l;
    assert u / 0x100 == h && u % 0x100 == l && u / 0x1_0000 == 0 && u / 0x100_0000 == 0;
  }

  /** The signed reading is the number of 32 bits with the same pattern. */
  lemma SignedMeaning(u: nat)
    requires u < 0x1_0000_0000
    ensures -0x8000_0000 <= Signed(u) < 0x8000_0000 && (Signed(u) - u) % 0x1_0000_0000 == 0
    ensures Unsigned(Signed(u)) == u
  {
  }

  // ----- frames -----

  /**
    A datagram of at most 8192 bytes that announces its own length, in four bytes most significant
    first, is queued as it stands, and nothing behind it is touched.
   */
  lemma FrameIsQueued(hi: Byte, lo: Byte, code: seq<Byte>, payload: seq<Byte>, rest: seq<Datagram>, stack: Stack)
    requires |code| == 4 && |payload| >= 1 && 8 + |payload| <= 8192 && 256 * hi + lo == 4 + |payload|
    ensures var d := [0, 0, hi, lo] + code + payload;
            Serve([d] + rest, stack) == Served(Queued(d), rest)
  {
    hide Serve;
    var d: Datagram := [0, 0, hi, lo] + code + payload;
    SmallAnnounced(d, hi, lo);
    assert d[..4 + Announced(d)] == d;
    ServeWhole(d, rest, stack);
  }

  lemma SmallAnnounced(d: seq<Byte>, hi: Byte, lo: Byte)
    requires |d| >= 4 && d[..4] == [0, 0, hi, lo]
    ensures Announced(d) == 256 * hi + lo
  {
    SmallWord(hi, lo);
  }

  /** What a datagram holds beyond 8192 bytes is lost. */
  lemma LongDatagram(d: Datagram)
    requires |d| > 8192
    ensures |Delivered(d)| == 8192 && Delivered(d) == d[..8192]
  {
  }

  /** A frame of 8192 bytes is taken, one of 8193 bytes is cut short and dropped. */
  lemma LargestDatagram(code: seq<Byte>, stack: Stack)
    requires |code| == 4
    ensures var d := [0, 0, 0x1F, 0xFC] + code + seq(8184, _ => 0);
            Serve([d], stack).event == Queued(d)
    ensures var d := [0, 0, 0x1F, 0xFD] + code + seq(8185, _ => 0);
            Serve([d], stack).event == Dropped
  {
    hide Serve;
    var d: Datagram := [0, 0, 0x1F, 0xFC] + code + seq(8184, _ => 0);
    FrameIsQueued(0x1F, 0xFC, code, seq(8184, _ => 0), [], stack);
    assert [d] + [] == [d];
    var e: Datagram := [0, 0, 0x1F, 0xFD] + code + seq(8185, _ => 0);
    var a := Stream([e]);
    LongDatagram(e);
    assert a == e[..8192] by { assert [e][1..] == [] && Stream([e]) == Delivered(e) + []; }
    SmallAnnounced(a, 0x1F, 0xFD);
    assert e != [];
    ServeStream([e], stack);
  }

  /** The buffer takes a payload of 10232 bytes behind header and code, and not one byte more. */
  lemma LargestPayload(code: seq<Byte>, more: bool, stack: Stack)
    requires |code| == 4
    ensures var first := [0, 0, 0x27, if more then 0xFD else 0xFC] + code + seq(8184, _ => 0);
            var second := seq(if more then 2049 else 2048, _ => 0);
            Serve([first, second], stack).event.Overrun? <==> more
  {
    hide Serve;
    var lo: Byte := if more then 0xFD else 0xFC;
    var first: Datagram := [0, 0, 0x27, lo] + code + seq(8184, _ => 0);
    var second: Datagram := seq(if more then 2049 else 2048, _ => 0);
    var queue := [first, second];
    assert queue[1..] == [second] && [second][1..] == [];
    var a := Stream(queue);
    assert a == first + second by { assert Stream([second]) == second + []; }
    assert a[..4] == [0, 0, 0x27, lo];
    SmallAnnounced(a, 0x27, lo);
    OverrunIff(queue, stack);
  }
}
