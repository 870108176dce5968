/** The module-level `read` loop: pull 3-byte headers from the serial port,
    discard the "mystery" chatter frames (`FF FF instr len body`), drop any
    other unrecognised 3-byte header, and return the first real frame
    `FE FE len` together with exactly `len` further bytes. */
module Reader {
  import opened Protocol
  import Decoder

  /** The serial port as the reader sees it: the bytes that will arrive, and
      how many of them have been read. A read that asks for more than is left
      returns what is left, as `serial.read` does on a timeout. */
  class SerialPort {
    const stream: seq<byte>
    var pos: nat

    ghost predicate Valid()
      reads this
    {
      pos <= |stream|
    }

    constructor (stream: seq<byte>)
      ensures Valid() && this.stream == stream && pos == 0
    {
      this.stream := stream;
      pos := 0;
    }

    /** `read(n)`: the next `n` bytes, or all that remain when fewer do. */
    method Read(n: nat) returns (bs: seq<byte>)
      requires Valid()
      modifies this
      ensures Valid()
      ensures |bs| == Min(n, |stream| - old(pos))
      ensures pos == old(pos) + |bs| && bs == stream[old(pos)..pos]
    {
      var end := Min(pos + n, |stream|);
      bs := stream[pos..end];
      pos := end;
    }
  }

  /** What one call of `read` ends with. */
  datatype Outcome =
    | Frame(bytes: seq<byte>)  // the frame returned: header, length byte and body
    | Incomplete               // `None`: the body is shorter than declared
    | Stuck                    // the stream ran dry inside a header; the source logs "bad header" forever
    | IndexFault               // a chatter header without its length byte: `length[0]` raises IndexError

  /** The outcome, the `mystery_size` counter, and the stream position reached. */
  datatype ReadState = ReadState(outcome: Outcome, mystery: nat, pos: nat)

  /** The end of one round of the loop: go on from a new position with a new
      counter, or leave the loop. */
  datatype Step = Continue(pos: nat, mystery: nat) | Done(state: ReadState)

  /** One round of the `while True` loop of `read` at stream position `pos`,
      stated on the stream itself: `read(3)` gets the header bytes
      `stream[pos..pos + 3]` when that many are left and every byte left
      otherwise. A chatter header `FF FF` is followed by its length byte
      (a missing one is the IndexError of `length[0]`) and that many body
      bytes or as many as are left, and is counted; a frame header `FE FE len`
      ends the loop with `len` more bytes, or with `None` when fewer are left;
      any other full header is dropped; a short header is logged as bad and
      the loop spins on an empty port. Every round that goes on consumes at
      least the three header bytes. */
  function Round(stream: seq<byte>, pos: nat, mystery: nat): (r: Step)
    requires pos <= |stream|
    ensures r.Continue? ==> pos + 3 <= r.pos <= |stream| && mystery <= r.mystery
    ensures r.Done? ==> pos <= r.state.pos <= |stream| && r.state.mystery == mystery
  {
    if |stream| < pos + 3 then Done(ReadState(Stuck, mystery, |stream|))
    else if stream[pos] == ChatterMarker && stream[pos + 1] == ChatterMarker then
      if |stream| == pos + 3 then Done(ReadState(IndexFault, mystery, |stream|))
      else
        var length := stream[pos + 3] as int;
        Continue(Min(pos + 4 + length, |stream|), mystery + 3 * length)
    else if stream[pos] == Header && stream[pos + 1] == Header then
      var end := pos + 3 + stream[pos + 2] as int;
      if |stream| < end then Done(ReadState(Incomplete, mystery, |stream|))
      else Done(ReadState(Frame(stream[pos..end]), mystery, end))
    else Continue(pos + 3, mystery)
  }

  /** The whole loop: rounds from `pos` until one leaves it. */
  function Scan(stream: seq<byte>, pos: nat, mystery: nat): (r: ReadState)
    requires pos <= |stream|
    ensures pos <= r.pos <= |stream|
    ensures mystery <= r.mystery
    decreases |stream| - pos
  {
    match Round(stream, pos, mystery)
    case Done(st) => st
    case Continue(p, m) => Scan(stream, p, m)
  }

  /** Where the loop starts: after the optional pre-read of `FastReadSize` bytes. */
  function StartPos(stream: seq<byte>, pos: nat, fastRead: bool): (r: nat)
    requires pos <= |stream|
    ensures pos <= r <= |stream|
    ensures !fastRead ==> r == pos
    ensures fastRead ==> r == Min(pos + FastReadSize, |stream|)
  {
    if fastRead then Min(pos + FastReadSize, |stream|) else pos
  }

  /** One round of the loop body of `read`, reading from the port. */
  method ReadRound(port: SerialPort, mystery: nat) returns (step: Step)
    requires port.Valid()
    modifies port
    ensures port.Valid()
    ensures step == Round(port.stream, old(port.pos), mystery)
    ensures port.pos == if step.Continue? then step.pos else step.state.pos
  {
    var header := port.Read(3);
    if |header| == 3 && header[0] == ChatterMarker && header[1] == ChatterMarker {
      var length := port.Read(1);
      if |length| == 0 {
        return Done(ReadState(IndexFault, mystery, port.pos));
      }
      var body := port.Read(length[0]);
      return Continue(port.pos, mystery + 3 * (length[0] as int));
    } else if |header| == 3 && header[0] == Header && header[1] == Header {
      var length := header[2];
      var body := port.Read(length);
      if |body| < length {
        return Done(ReadState(Incomplete, mystery, port.pos));
      }
      assert header + body == port.stream[old(port.pos)..port.pos];
      return Done(ReadState(Frame(header + body), mystery, port.pos));
    } else if |header| == 3 {
      return Continue(port.pos, mystery);
    } else {
      return Done(ReadState(Stuck, mystery, port.pos));
    }
  }

  /** `read`: the optional fast pre-read, then the header loop, which goes on
      until a round leaves it. */
  method ReadFrame(port: SerialPort, fastRead: bool) returns (outcome: Outcome, mystery: nat)
    requires port.Valid()
    modifies port
    ensures port.Valid()
    ensures ReadState(outcome, mystery, port.pos) == Scan(port.stream, StartPos(port.stream, old(port.pos), fastRead), 0)
  {
    if fastRead {
      var _ := port.Read(FastReadSize);
    }
    mystery := 0;
    ghost var start := port.pos;
    while true
      invariant port.Valid()
      invariant Scan(port.stream, port.pos, mystery) == Scan(port.stream, start, 0)
      decreases |port.stream| - port.pos
    {
      var step := ReadRound(port, mystery);
      match step
      case Done(st) =>
        outcome := st.outcome;
        return;
      case Continue(_, m) =>
        mystery := m;
    }
  }

  // ---------------------------------------------------------------------------
  // Properties of `read`

  /** What may precede a real frame: a chatter frame, or a 3-byte header
      that is neither a chatter nor a frame header. */
  datatype Noise =
    | Chatter(instr: byte, body: seq<byte>)
    | BadHeader(b0: byte, b1: byte, b2: byte)

  predicate ValidNoise(n: Noise) {
    match n
    case Chatter(_, body) => |body| < 256
    case BadHeader(b0, b1, b2) =>
      !(b0 == ChatterMarker && b1 == ChatterMarker) && !(b0 == Header && b1 == Header)
  }

  /** The bytes of a noise element on the wire. */
  function NoiseBytes(n: Noise): (r: seq<byte>)
    requires ValidNoise(n)
  {
    match n
    case Chatter(instr, body) => [ChatterMarker, ChatterMarker, instr, |body|] + body
    case BadHeader(b0, b1, b2) => [b0, b1, b2]
  }

  /** How many bytes a noise element occupies on the wire. */
  function NoiseSize(n: Noise): (r: nat)
    ensures ValidNoise(n) ==> r == |NoiseBytes(n)|
  {
    match n
    case Chatter(_, body) => 4 + |body|
    case BadHeader(_, _, _) => 3
  }

  function TotalSize(ns: seq<Noise>): nat {
    if ns == [] then 0 else NoiseSize(ns[0]) + TotalSize(ns[1..])
  }

  /** What `mystery_size` adds up for the chatter frames in `ns`: three per body byte. */
  function MysteryOf(ns: seq<Noise>): nat {
    if ns == [] then 0
    else (if ns[0].Chatter? then 3 * |ns[0].body| else 0) + MysteryOf(ns[1..])
  }

  /** The stream holds `bytes` from `pos` on. */
  predicate Fits(stream: seq<byte>, pos: nat, bytes: seq<byte>) {
    pos + |bytes| <= |stream| && forall k {:trigger bytes[k]} :: 0 <= k < |bytes| ==> stream[pos + k] == bytes[k]
  }

  /** The stream holds the noise run `ns` from `pos` on, element after
      element. */
  predicate NoiseAt(stream: seq<byte>, pos: nat, ns: seq<Noise>)
    ensures NoiseAt(stream, pos, ns) ==> pos + TotalSize(ns) <= |stream|
    decreases ns
  {
    if ns == [] then pos <= |stream|
    else
      && ValidNoise(ns[0])
      && Fits(stream, pos, NoiseBytes(ns[0]))
      && NoiseAt(stream, pos + NoiseSize(ns[0]), ns[1..])
  }

  /** A round that goes on leaves the scan's end unchanged. */
  lemma ScanContinue(stream: seq<byte>, pos: nat, m: nat, p: nat, m1: nat)
    requires pos <= |stream| && Round(stream, pos, m) == Continue(p, m1)
    ensures Scan(stream, pos, m) == Scan(stream, p, m1)
  {
  }

  /** A chatter frame is consumed in one round, adding three per body byte. */
  lemma RoundSkipsChatter(stream: seq<byte>, pos: nat, m: nat, instr: byte, body: seq<byte>)
    requires |body| < 256 && Fits(stream, pos, [ChatterMarker, ChatterMarker, instr, |body|] + body)
    ensures Round(stream, pos, m) == Continue(pos + 4 + |body|, m + 3 * |body|)
  {
    var bytes: seq<byte> := [ChatterMarker, ChatterMarker, instr, |body|] + body;
    assert bytes[0] == ChatterMarker && bytes[1] == ChatterMarker && bytes[3] == |body|;
  }

  /** A header that is neither a chatter nor a frame header is dropped whole. */
  lemma RoundSkipsBadHeader(stream: seq<byte>, pos: nat, m: nat, b0: byte, b1: byte, b2: byte)
    requires !(b0 == ChatterMarker && b1 == ChatterMarker) && !(b0 == Header && b1 == Header)
    requires Fits(stream, pos, [b0, b1, b2])
    ensures Round(stream, pos, m) == Continue(pos + 3, m)
  {
    var bytes := [b0, b1, b2];
    assert bytes[0] == b0 && bytes[1] == b1;
  }

  /** One chatter frame or bad header is consumed in one round. */
  lemma RoundSkipsNoise(stream: seq<byte>, pos: nat, m: nat, n: Noise, p: nat, m1: nat)
    requires ValidNoise(n) && Fits(stream, pos, NoiseBytes(n))
    requires p == pos + NoiseSize(n) && m1 == m + MysteryOf([n])
    ensures Scan(stream, pos, m) == Scan(stream, p, m1)
  {
    match n
    case Chatter(instr, body) =>
      assert MysteryOf([n]) == 3 * |body|;
      RoundSkipsChatter(stream, pos, m, instr, body);
      ScanContinue(stream, pos, m, p, m1);
    case BadHeader(b0, b1, b2) =>
      assert MysteryOf([n]) == 0;
      RoundSkipsBadHeader(stream, pos, m, b0, b1, b2);
      ScanContinue(stream, pos, m, p, m1);
  }

  /** Any run of chatter frames and bad headers is consumed, and each chatter
      frame of body length `len` adds `3 * len` to `mystery_size`: the scan
      from `pos` ends where the scan from `q`, just past the noise, ends. */
  lemma {:induction false} ScanSkipsNoise(stream: seq<byte>, pos: nat, m: nat, ns: seq<Noise>, q: nat, mm: nat)
    requires NoiseAt(stream, pos, ns)
    requires q == pos + TotalSize(ns) && mm == m + MysteryOf(ns)
    ensures Scan(stream, pos, m) == Scan(stream, q, mm)
    decreases ns
  {
    if ns == [] {
      NoNoise(stream, pos, m, ns, q, mm);
    } else {
      var p := pos + NoiseSize(ns[0]);
      var m1 := m + MysteryOf([ns[0]]);
      NoiseTail(stream, pos, m, ns, q, mm);
      ScanSkipsNoise(stream, p, m1, ns[1..], q, mm);
      SkipThenChain(stream, pos, m, ns[0], p, m1, q, mm);
    }
  }

  /** The empty case of `ScanSkipsNoise`, kept apart so that each proof stays small. */
  lemma NoNoise(stream: seq<byte>, pos: nat, m: nat, ns: seq<Noise>, q: nat, mm: nat)
    requires NoiseAt(stream, pos, ns) && ns == []
    requires q == pos + TotalSize(ns) && mm == m + MysteryOf(ns)
    ensures Scan(stream, pos, m) == Scan(stream, q, mm)
  {
    assert TotalSize(ns) == 0 && MysteryOf(ns) == 0;
    assert q == pos && mm == m;
  }

  /** The rest of a noise run starts right after its first element; split
      out of `ScanSkipsNoise` so that each proof stays small. */
  lemma NoiseTail(stream: seq<byte>, pos: nat, m: nat, ns: seq<Noise>, q: nat, mm: nat)
    requires NoiseAt(stream, pos, ns) && ns != []
    requires q == pos + TotalSize(ns) && mm == m + MysteryOf(ns)
    ensures ValidNoise(ns[0]) && Fits(stream, pos, NoiseBytes(ns[0]))
    ensures NoiseAt(stream, pos + NoiseSize(ns[0]), ns[1..])
    ensures q == pos + NoiseSize(ns[0]) + TotalSize(ns[1..]) && q <= |stream|
    ensures mm == m + MysteryOf([ns[0]]) + MysteryOf(ns[1..])
  {
    assert MysteryOf(ns) == MysteryOf([ns[0]]) + MysteryOf(ns[1..]);
  }

  /** One noise element, then a scan known to end where the scan from `q`
      ends; the step case of `ScanSkipsNoise`, kept apart so that each proof
      stays small. */
  lemma SkipThenChain(stream: seq<byte>, pos: nat, m: nat, n: Noise, p: nat, m1: nat, q: nat, mm: nat)
    requires ValidNoise(n) && Fits(stream, pos, NoiseBytes(n))
    requires p == pos + NoiseSize(n) && m1 == m + MysteryOf([n])
    requires q <= |stream| && Scan(stream, p, m1) == Scan(stream, q, mm)
    ensures Scan(stream, pos, m) == Scan(stream, q, mm)
  {
    RoundSkipsNoise(stream, pos, m, n, p, m1);
  }

  /** A round that leaves the loop ends the scan. */
  lemma ScanDone(stream: seq<byte>, pos: nat, m: nat)
    requires pos <= |stream| && Round(stream, pos, m).Done?
    ensures Scan(stream, pos, m) == Round(stream, pos, m).state
  {
  }

  /** After any noise, a frame header with `len` further bytes is returned as
      exactly those `3 + len` bytes of the stream, whatever follows them. */
  lemma ReadsFrameAfterNoise(stream: seq<byte>, ns: seq<Noise>)
    requires NoiseAt(stream, 0, ns) && TotalSize(ns) + 3 <= |stream|
    requires stream[TotalSize(ns)] == Header && stream[TotalSize(ns) + 1] == Header
    requires TotalSize(ns) + 3 + stream[TotalSize(ns) + 2] <= |stream|
    ensures Scan(stream, 0, 0) == ReadState(Frame(stream[TotalSize(ns)..TotalSize(ns) + 3 + stream[TotalSize(ns) + 2]]),
                                            MysteryOf(ns), TotalSize(ns) + 3 + stream[TotalSize(ns) + 2])
  {
    ScanSkipsNoise(stream, 0, 0, ns, TotalSize(ns), MysteryOf(ns));
    ScanDone(stream, TotalSize(ns), MysteryOf(ns));
  }

  /** After any noise, a frame header whose body is cut short makes `read`
      return `None`, having read to the end of the stream. */
  lemma IncompleteAfterNoise(stream: seq<byte>, ns: seq<Noise>)
    requires NoiseAt(stream, 0, ns) && TotalSize(ns) + 3 <= |stream|
    requires stream[TotalSize(ns)] == Header && stream[TotalSize(ns) + 1] == Header
    requires |stream| < TotalSize(ns) + 3 + stream[TotalSize(ns) + 2]
    ensures Scan(stream, 0, 0) == ReadState(Incomplete, MysteryOf(ns), |stream|)
  {
    ScanSkipsNoise(stream, 0, 0, ns, TotalSize(ns), MysteryOf(ns));
    ScanDone(stream, TotalSize(ns), MysteryOf(ns));
  }

  /** After any noise, fewer than three bytes leave the source looping on
      "bad header" for ever. */
  lemma StuckAfterNoise(stream: seq<byte>, ns: seq<Noise>)
    requires NoiseAt(stream, 0, ns) && |stream| < TotalSize(ns) + 3
    ensures Scan(stream, 0, 0) == ReadState(Stuck, MysteryOf(ns), |stream|)
  {
    ScanSkipsNoise(stream, 0, 0, ns, TotalSize(ns), MysteryOf(ns));
    ScanDone(stream, TotalSize(ns), MysteryOf(ns));
  }

  /** After any noise, a chatter header that ends the stream raises the
      IndexError of `length[0]`. */
  lemma IndexFaultAfterNoise(stream: seq<byte>, ns: seq<Noise>)
    requires NoiseAt(stream, 0, ns) && |stream| == TotalSize(ns) + 3
    requires stream[TotalSize(ns)] == ChatterMarker && stream[TotalSize(ns) + 1] == ChatterMarker
    ensures Scan(stream, 0, 0) == ReadState(IndexFault, MysteryOf(ns), |stream|)
  {
    ScanSkipsNoise(stream, 0, 0, ns, TotalSize(ns), MysteryOf(ns));
    ScanDone(stream, TotalSize(ns), MysteryOf(ns));
  }

  /** Whatever the stream, a returned frame is a contiguous run of it ending
      where reading stopped: `FE FE len` and exactly `len` more bytes. */
  lemma {:induction false} ScanFrameShape(stream: seq<byte>, pos: nat, m: nat)
    requires pos <= |stream|
    requires Scan(stream, pos, m).outcome.Frame?
    ensures var r := Scan(stream, pos, m);
            var f := r.outcome.bytes;
            && |f| >= 3 && f[0] == Header && f[1] == Header && |f| == 3 + f[2] as int
            && |f| <= r.pos && stream[r.pos - |f|..r.pos] == f
    decreases |stream| - pos
  {
    match Round(stream, pos, m)
    case Continue(p, m') =>
      ScanFrameShape(stream, p, m');
    case Done(st) =>
  }

  /** A frame as `read` returns it, handed to `_process_received`: a length
      byte of 2 or less is not taken for a frame and gives `[]`; otherwise
      the frame is found at its start, never raises IndexError, and its body
      is every byte after the command byte but the last (the footer, which
      is not checked). */
  lemma FrameReceived(f: seq<byte>, genre: int)
    requires |f| >= 3 && f[0] == Header && f[1] == Header && |f| == 3 + f[2] as int
    ensures f[2] <= 2 ==> Decoder.Received(f, genre) == Ok([])
    ensures f[2] > 2 && f[3] as int != genre ==> Decoder.Received(f, genre) == Ok([])
    ensures f[2] > 2 && f[3] as int == genre ==>
              Decoder.Received(f, genre) == Decoder.DecodePayload(f[4..|f| - 1], f[2] as int - 2, genre)
  {
    if f[2] > 2 {
      Decoder.ReceivedAtFirstFrame(f, genre, 0);
    } else {
      forall i | 0 <= i < |f|
        ensures !Decoder.IsFrameStart(f, i)
      {
      }
      Decoder.ReceivedWithoutFrame(f, genre);
    }
  }

  /** Whatever arrives on the port, a frame `read` returns never makes
      `_process_received` raise IndexError: the only failure left is a
      struct error from a body of the wrong size. */
  lemma ReadFrameNeverIndexError(stream: seq<byte>, pos: nat, fastRead: bool, genre: int)
    requires pos <= |stream|
    requires Scan(stream, StartPos(stream, pos, fastRead), 0).outcome.Frame?
    ensures Decoder.Received(Scan(stream, StartPos(stream, pos, fastRead), 0).outcome.bytes, genre) != Err(IndexError)
  {
    var start := StartPos(stream, pos, fastRead);
    ScanFrameShape(stream, start, 0);
    var f := Scan(stream, start, 0).outcome.bytes;
    FrameReceived(f, genre);
  }

  /** An angle-query reply with length byte 4: command, one int16, footer. */
  const SampleReply: seq<byte> := [0xFE, 0xFE, 0x04, 0x20, 0x01, 0x02, 0xFA]

  /** A chatter frame `FF FF 01 02` with two body bytes, then the reply. */
  const SampleStream: seq<byte> := [0xFF, 0xFF, 0x01, 0x02, 0x10, 0x11] + SampleReply

  /** The chatter frame at the head of the sample stream, complete or not. */
  lemma SampleChatterAt(n: nat)
    requires 6 <= n <= |SampleStream|
    ensures NoiseAt(SampleStream[..n], 0, [Chatter(0x01, [0x10, 0x11])])
    ensures TotalSize([Chatter(0x01, [0x10, 0x11])]) == 6
    ensures MysteryOf([Chatter(0x01, [0x10, 0x11])]) == 6
  {
    var ns := [Chatter(0x01, [0x10, 0x11])];
    assert ns[1..] == [];
    var bytes := NoiseBytes(ns[0]);
    assert bytes == SampleStream[..6];
    forall k | 0 <= k < |bytes| ensures SampleStream[..n][k] == bytes[k] {
    }
  }

  /** The sample stream cut after the three bytes that follow the length
      byte: `read` gives up with `None`, having counted 6 mystery bytes. */
  lemma ChatterThenPartialReply()
    ensures Scan(SampleStream[..12], 0, 0) == ReadState(Incomplete, 6, 12)
  {
    SampleChatterAt(12);
    IncompleteAfterNoise(SampleStream[..12], [Chatter(0x01, [0x10, 0x11])]);
  }

  /** The whole sample stream, footer included: `read` returns the reply. */
  lemma ChatterThenReply()
    ensures Scan(SampleStream, 0, 0) == ReadState(Frame(SampleReply), 6, 13)
  {
    SampleChatterAt(13);
    assert SampleStream[..13] == SampleStream;
    ReadsFrameAfterNoise(SampleStream, [Chatter(0x01, [0x10, 0x11])]);
    assert SampleStream[6..13] == SampleReply;
  }

  /** That reply, decoded for the angle query: one int16, 0x0102. */
  lemma SampleReplyDecodes()
    ensures Decoder.Received(SampleReply, GetAngles as int) == Ok([0x0102])
  {
    FrameReceived(SampleReply, GetAngles as int);
    assert SampleReply[4..|SampleReply| - 1] == [0x01, 0x02];
  }
}
