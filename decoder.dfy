/** The reply decoder of `DataProcessor`: locate the first `FE FE len` header
    with a positive body length, check the command byte against the command
    that was sent, and decode the body by its declared length. */
module Decoder {
  import opened Protocol
  import opened Codec

  /** `_is_frame_header`: two header bytes at `pos`. */
  predicate IsFrameHeader(data: seq<byte>, pos: nat)
    requires pos + 1 < |data|
  {
    data[pos] == Header && data[pos + 1] == Header
  }

  /** The scan of `_process_received` stops at `i`: `i` is one of
      `range(len(data) - 2)`, holds a header, and its length byte leaves a
      positive body length. */
  predicate IsFrameStart(data: seq<byte>, i: int) {
    0 <= i && i + 2 < |data| && IsFrameHeader(data, i) && data[i + 2] as int - 2 > 0
  }

  /** `i` is the first index the scan stops at. */
  predicate FirstFrameAt(data: seq<byte>, i: int) {
    IsFrameStart(data, i) && forall j :: 0 <= j < i ==> !IsFrameStart(data, j)
  }

  /** The first frame start at or after `from`, if any. */
  function FindFrame(data: seq<byte>, from: nat): (r: Option<nat>)
    requires from <= |data|
    ensures r.Some? ==> from <= r.value && IsFrameStart(data, r.value)
    ensures forall j :: from <= j && (r.None? || j < r.value) ==> !IsFrameStart(data, j)
    decreases |data| - from
  {
    if from + 2 >= |data| then None
    else if IsFrameStart(data, from) then Some(from)
    else FindFrame(data, from + 1)
  }

  /** The scan finds the first frame start. */
  lemma FirstFrameFound(data: seq<byte>, i: int)
    requires FirstFrameAt(data, i)
    ensures FindFrame(data, 0) == Some(i)
  {
  }

  /** The `for idx in range(0, len(body), 2)` loop for 12- and 8-byte bodies:
      consecutive pairs read as big-endian int16, a trailing odd byte a
      struct.error. */
  function DecodeInt16Pairs(body: seq<byte>): (r: Result<seq<int>>)
    ensures r.Ok? <==> |body| % 2 == 0
    ensures r.Err? ==> r.error == StructError
    ensures r.Ok? ==> |r.value| == |body| / 2
    ensures r.Ok? ==> forall k :: 0 <= k < |r.value| ==> DecodeInt16(body[2 * k..2 * k + 2]) == Ok(r.value[k])
    decreases |body|
  {
    if body == [] then Ok([])
    else match DecodeInt16(Slice(body, 0, 2))
      case Err(e) => Err(e)
      case Ok(v) =>
        match DecodeInt16Pairs(body[2..])
        case Err(e) => Err(e)
        case Ok(rest) =>
          var r := [v] + rest;
          assert forall k :: 1 <= k < |r| ==> body[2 * k..2 * k + 2] == body[2..][2 * (k - 1)..2 * (k - 1) + 2];
          Ok(r)
  }

  /** A one-value reply. */
  function Single(v: Result<int>): (r: Result<seq<int>>)
    ensures r.Ok? <==> v.Ok?
    ensures r.Ok? ==> r.value == [v.value]
    ensures r.Err? ==> r.error == v.error
  {
    match v
    case Err(e) => Err(e)
    case Ok(x) => Ok([x])
  }

  /** Interpretation of the body by its declared length `bodyLen` and the
      command `genre`; `body` is what the slice actually holds. */
  function DecodePayload(body: seq<byte>, bodyLen: int, genre: int): (r: Result<seq<int>>)
    ensures r.Err? ==> r.error == StructError
    ensures r.Ok? && bodyLen != 12 && bodyLen != 8 ==> |r.value| == 1
  {
    if bodyLen == 12 || bodyLen == 8 then DecodeInt16Pairs(body)
    else if bodyLen == 2 then
      if genre == IsServoEnable as int then Single(DecodeInt8(Slice(body, 1, 2)))
      else Single(DecodeInt16(body))
    else Single(DecodeInt8(body))
  }

  /** What `_process_received(data, genre)` returns or raises. */
  function Received(data: seq<byte>, genre: int): (r: Result<seq<int>>)
    ensures r.Err? ==> r.error == IndexError || r.error == StructError
  {
    if data == [] then Ok([])
    else match FindFrame(data, 0)
      case None => Ok([])
      case Some(i) =>
        if i + 3 >= |data| then Err(IndexError)
        else if data[i + 3] as int != genre then Ok([])
        else
          var bodyLen := data[i + 2] as int - 2;
          DecodePayload(Slice(data, i + 4, i + 4 + bodyLen), bodyLen, genre)
  }

  /** `_process_received`: the header scan with its for/else and the
      command check; the body is then decoded by `DecodeBody`. */
  method ProcessReceived(data: seq<byte>, genre: int) returns (r: Result<seq<int>>)
    ensures r == Received(data, genre)
  {
    if data == [] {
      return Ok([]);
    }
    var bodyLen: int := 0;
    var idx := 0;
    var found := false;
    while idx < |data| - 2
      invariant 0 <= idx
      invariant !found
      invariant forall j :: 0 <= j < idx ==> !IsFrameStart(data, j)
    {
      if IsFrameHeader(data, idx) {
        bodyLen := data[idx + 2] as int - 2;
        if bodyLen > 0 {
          found := true;
          break;
        }
      }
      idx := idx + 1;
    }
    if !found {
      return Ok([]);
    }
    FirstFrameFound(data, idx);

    if idx + 3 >= |data| {
      return Err(IndexError);
    }
    var cmdId := data[idx + 3];
    if cmdId as int != genre {
      return Ok([]);
    }
    var dataPos := idx + 4;
    var body := Slice(data, dataPos, dataPos + bodyLen);
    r := DecodeBody(body, bodyLen, genre);
  }

  /** The tail of `_process_received`: decode the body sliced out of the
      frame by its declared length, appending to the result list. */
  method DecodeBody(body: seq<byte>, bodyLen: int, genre: int) returns (r: Result<seq<int>>)
    ensures r == DecodePayload(body, bodyLen, genre)
  {
    var res: seq<int> := [];
    if bodyLen == 12 || bodyLen == 8 {
      var k := 0;
      while k < |body|
        invariant 0 <= k <= |body| && k % 2 == 0
        invariant |res| == k / 2
        invariant forall m :: 0 <= m < |res| ==> DecodeInt16(body[2 * m..2 * m + 2]) == Ok(res[m])
      {
        var one := Slice(body, k, k + 2);
        var v := DecodeInt16(one);
        if v.Err? {
          return Err(v.error);
        }
        res := res + [v.value];
        k := k + 2;
      }
      ghost var expected := DecodeInt16Pairs(body);
      assert expected.Ok? && |expected.value| == |res|;
      assert forall m :: 0 <= m < |res| ==> expected.value[m] == res[m];
      assert res == expected.value;
    } else if bodyLen == 2 {
      if genre == IsServoEnable as int {
        var v := DecodeInt8(Slice(body, 1, 2));
        if v.Err? {
          return Err(v.error);
        }
        return Ok([v.value]);
      }
      var v := DecodeInt16(body);
      if v.Err? {
        return Err(v.error);
      }
      res := res + [v.value];
      assert res == [v.value];
    } else {
      var v := DecodeInt8(body);
      if v.Err? {
        return Err(v.error);
      }
      res := res + [v.value];
      assert res == [v.value];
    }
    return Ok(res);
  }

  // ---------------------------------------------------------------------------
  // Properties of `_process_received`

  /** The bytes the body slice `data[i + 4 : i + 4 + body_len]` holds for the
      frame starting at `i`; shorter than declared when the data ends early. */
  function FrameBody(data: seq<byte>, i: nat): (r: seq<byte>)
    requires i + 2 < |data|
    ensures |r| <= data[i + 2] as int - 2 || data[i + 2] < 2
  {
    Slice(data, i + 4, i + 2 + data[i + 2] as int)
  }

  /** The body is complete: all `len - 2` body bytes lie inside `data`. */
  predicate BodyComplete(data: seq<byte>, i: nat)
    requires i + 2 < |data|
  {
    i + 2 + data[i + 2] as int <= |data|
  }

  /** Only the first frame start counts: a header at the very end raises
      IndexError, a frame for another command gives `[]`, and otherwise its
      body is decoded. */
  lemma ReceivedAtFirstFrame(data: seq<byte>, genre: int, i: nat)
    requires FirstFrameAt(data, i)
    ensures i + 3 >= |data| ==> Received(data, genre) == Err(IndexError)
    ensures i + 3 < |data| && data[i + 3] as int != genre ==> Received(data, genre) == Ok([])
    ensures i + 3 < |data| && data[i + 3] as int == genre ==>
              Received(data, genre) == DecodePayload(FrameBody(data, i), data[i + 2] as int - 2, genre)
  {
    FirstFrameFound(data, i);
  }

  /** Without any header followed by a length byte above 2 (an empty input
      included), the reply is empty. */
  lemma ReceivedWithoutFrame(data: seq<byte>, genre: int)
    requires forall i :: 0 <= i < |data| ==> !IsFrameStart(data, i)
    ensures Received(data, genre) == Ok([])
  {
  }

  /** The IndexError of `data[idx + 3]` is raised exactly when the first
      frame start is the last possible one, leaving no command byte. */
  lemma ReceivedIndexError(data: seq<byte>, genre: int)
    ensures Received(data, genre) == Err(IndexError) <==> FirstFrameAt(data, |data| - 3)
  {
    if FirstFrameAt(data, |data| - 3) {
      FirstFrameFound(data, |data| - 3);
    }
    if Received(data, genre) == Err(IndexError) {
      var i := FindFrame(data, 0).value;
      assert FirstFrameAt(data, i);
    }
  }

  /** A reply to another command is discarded: `[]`, which `_process_single`
      turns into -1. */
  lemma ReceivedCommandMismatch(data: seq<byte>, genre: int, i: nat)
    requires FirstFrameAt(data, i) && i + 3 < |data| && data[i + 3] as int != genre
    ensures Received(data, genre) == Ok([])
    ensures ProcessSingle(Received(data, genre).value) == -1
  {
    ReceivedAtFirstFrame(data, genre, i);
  }

  /** Declared body length 12 or 8: the body bytes read pairwise as big-endian
      int16; all `body_len / 2` of them when the body is complete, and a
      struct.error only when a truncated body ends in half a pair. */
  lemma ReceivedMultiValue(data: seq<byte>, genre: int, i: nat)
    requires FirstFrameAt(data, i) && i + 3 < |data| && data[i + 3] as int == genre
    requires data[i + 2] == 14 || data[i + 2] == 10
    ensures Received(data, genre).Ok? <==> |FrameBody(data, i)| % 2 == 0
    ensures Received(data, genre).Err? ==> Received(data, genre).error == StructError
    ensures Received(data, genre).Ok? ==> |Received(data, genre).value| == |FrameBody(data, i)| / 2
    ensures Received(data, genre).Ok? ==>
              forall k :: 0 <= k < |Received(data, genre).value| ==>
                DecodeInt16(FrameBody(data, i)[2 * k..2 * k + 2]) == Ok(Received(data, genre).value[k])
  {
    ReceivedAtFirstFrame(data, genre, i);
  }

  /** With the whole body present, a multi-value reply always decodes: one
      value per byte pair of the frame, in order. */
  lemma ReceivedMultiValueComplete(data: seq<byte>, genre: int, i: nat)
    requires FirstFrameAt(data, i) && i + 3 < |data| && data[i + 3] as int == genre
    requires data[i + 2] == 14 || data[i + 2] == 10
    requires BodyComplete(data, i)
    ensures Received(data, genre).Ok?
    ensures |Received(data, genre).value| == (data[i + 2] - 2) / 2
    ensures forall k :: 0 <= k < |Received(data, genre).value| ==>
              DecodeInt16(data[i + 4 + 2 * k..i + 6 + 2 * k]) == Ok(Received(data, genre).value[k])
  {
    ReceivedMultiValue(data, genre, i);
    var body := FrameBody(data, i);
    assert body == data[i + 4..i + 2 + data[i + 2] as int];
    forall k | 0 <= k < (data[i + 2] - 2) / 2
      ensures data[i + 4 + 2 * k..i + 6 + 2 * k] == body[2 * k..2 * k + 2]
    {
      SliceOfSlice(data, i + 4, i + 2 + data[i + 2] as int, 2 * k, 2 * k + 2);
    }
  }

  lemma SliceOfSlice<T>(s: seq<T>, lo: nat, hi: nat, a: nat, b: nat)
    requires lo <= hi <= |s| && a <= b <= hi - lo
    ensures s[lo..hi][a..b] == s[lo + a..lo + b]
  {
    forall j | 0 <= j < b - a
      ensures s[lo..hi][a..b][j] == s[lo + a..lo + b][j]
    {
      assert s[lo..hi][a..b][j] == s[lo..hi][a + j] == s[lo + a + j];
    }
  }

  /** `IS_SERVO_ENABLE` with a 2-byte body: exactly the int8 of the second
      body byte; the first body byte plays no part. */
  lemma ReceivedServoEnable(data: seq<byte>, i: nat)
    requires FirstFrameAt(data, i) && i + 3 < |data| && data[i + 3] == IsServoEnable
    requires data[i + 2] == 4
    ensures Received(data, IsServoEnable as int).Ok? <==> i + 6 <= |data|
    ensures Received(data, IsServoEnable as int).Err? ==> Received(data, IsServoEnable as int).error == StructError
    ensures i + 6 <= |data| ==> Received(data, IsServoEnable as int) == Ok([DecodeInt8([data[i + 5]]).value])
  {
    ReceivedAtFirstFrame(data, IsServoEnable as int, i);
    if i + 6 <= |data| {
      var body := FrameBody(data, i);
      assert body == data[i + 4..i + 6];
      assert body[1] == data[i + 5];
      assert Slice(body, 1, 2) == [data[i + 5]];
    }
  }

  /** Any other command with a 2-byte body: one big-endian int16. */
  lemma ReceivedInt16(data: seq<byte>, genre: int, i: nat)
    requires FirstFrameAt(data, i) && i + 3 < |data| && data[i + 3] as int == genre
    requires data[i + 2] == 4 && genre != IsServoEnable as int
    ensures Received(data, genre).Ok? <==> i + 6 <= |data|
    ensures Received(data, genre).Err? ==> Received(data, genre).error == StructError
    ensures i + 6 <= |data| ==> Received(data, genre) == Ok([DecodeInt16(data[i + 4..i + 6]).value])
  {
    ReceivedAtFirstFrame(data, genre, i);
  }

  /** Every other declared length goes to `_decode_int8`, which succeeds only
      on a single byte: a 1-byte body (or a body cut down to one byte) gives
      its int8, anything else a struct.error. */
  lemma ReceivedInt8(data: seq<byte>, genre: int, i: nat)
    requires FirstFrameAt(data, i) && i + 3 < |data| && data[i + 3] as int == genre
    requires data[i + 2] !in {4, 10, 14}
    ensures Received(data, genre).Ok? <==> |FrameBody(data, i)| == 1
    ensures Received(data, genre).Err? ==> Received(data, genre).error == StructError
    ensures |FrameBody(data, i)| == 1 ==> Received(data, genre) == Ok([DecodeInt8([data[i + 4]]).value])
    ensures data[i + 2] == 3 && BodyComplete(data, i) ==> Received(data, genre).Ok?
  {
    ReceivedAtFirstFrame(data, genre, i);
    if |FrameBody(data, i)| == 1 {
      assert FrameBody(data, i) == [data[i + 4]];
    }
  }

  /** Nothing after the body is looked at: neither the footer byte (0xFA by
      the protocol) nor anything that follows it. */
  lemma ReceivedIgnoresTrailingBytes(data: seq<byte>, tail: seq<byte>, genre: int, i: nat)
    requires FirstFrameAt(data, i) && BodyComplete(data, i)
    ensures Received(data + tail, genre) == Received(data, genre)
  {
    var ext := data + tail;
    assert FirstFrameAt(ext, i) by {
      forall j | 0 <= j <= i ensures IsFrameStart(ext, j) == IsFrameStart(data, j) {
        assert ext[j] == data[j] && ext[j + 1] == data[j + 1] && ext[j + 2] == data[j + 2];
      }
    }
    ReceivedAtFirstFrame(data, genre, i);
    ReceivedAtFirstFrame(ext, genre, i);
    if i + 3 < |data| {
      assert FrameBody(ext, i) == FrameBody(data, i);
    }
  }

  /** The two-byte `_encode_int16` encodings of `vs`, one after the other:
      the body of a multi-value reply. */
  function Int16Bytes(vs: seq<int>): (r: seq<byte>)
    requires forall k :: 0 <= k < |vs| ==> InInt16Range(vs[k])
    ensures |r| == 2 * |vs|
  {
    if vs == [] then [] else EncodeInt16(vs[0]).value + Int16Bytes(vs[1..])
  }

  /** The `k`-th pair of those bytes is the encoding of `vs[k]`. */
  lemma {:induction false} Int16BytesPair(vs: seq<int>, k: nat)
    requires forall j :: 0 <= j < |vs| ==> InInt16Range(vs[j])
    requires k < |vs|
    ensures Int16Bytes(vs)[2 * k..2 * k + 2] == EncodeInt16(vs[k]).value
  {
    var r := Int16Bytes(vs);
    var head := EncodeInt16(vs[0]).value;
    assert r == head + Int16Bytes(vs[1..]);
    if k == 0 {
      assert r[0..2] == head;
    } else {
      Int16BytesPair(vs[1..], k - 1);
      assert r[2 * k..2 * k + 2] == Int16Bytes(vs[1..])[2 * (k - 1)..2 * (k - 1) + 2];
    }
  }

  /** The layout of such a reply: a frame start at index 0 whose body is
      complete, one body pair per value. */
  lemma Int16ReplyHeader(data: seq<byte>, vs: seq<int>, genre: byte, footer: byte)
    requires |vs| == 6 || |vs| == 4
    requires forall k :: 0 <= k < |vs| ==> InInt16Range(vs[k])
    requires data == [Header, Header, (2 * |vs| + 2) as byte, genre] + Int16Bytes(vs) + [footer]
    ensures FirstFrameAt(data, 0) && data[3] == genre && (data[2] == 14 || data[2] == 10)
    ensures BodyComplete(data, 0) && (data[2] - 2) / 2 == |vs|
  {
    assert data[0] == Header && data[1] == Header && data[2] as int == 2 * |vs| + 2 && data[3] == genre;
  }

  /** The `k`-th body pair of such a reply is the encoding of `vs[k]`. */
  lemma Int16ReplyPair(data: seq<byte>, vs: seq<int>, k: nat)
    requires forall j :: 0 <= j < |vs| ==> InInt16Range(vs[j])
    requires 4 + 2 * |vs| <= |data| && data[4..4 + 2 * |vs|] == Int16Bytes(vs)
    requires k < |vs|
    ensures data[4 + 2 * k..6 + 2 * k] == EncodeInt16(vs[k]).value
  {
    Int16BytesPair(vs, k);
    BodyPair(data, Int16Bytes(vs), k, EncodeInt16(vs[k]).value);
  }

  /** A pair inside the body that starts at index 4 is a pair of the frame. */
  lemma BodyPair(data: seq<byte>, body: seq<byte>, k: nat, pair: seq<byte>)
    requires 4 + |body| <= |data| && data[4..4 + |body|] == body
    requires 2 * k + 2 <= |body| && body[2 * k..2 * k + 2] == pair
    ensures data[4 + 2 * k..6 + 2 * k] == pair
  {
    SliceOfSlice(data, 4, 4 + |body|, 2 * k, 2 * k + 2);
  }

  /** A multi-value reply (four or six values) whose body is the int16
      encodings of `vs` decodes back to exactly `vs`, whatever the footer. */
  lemma ReceivedInt16RoundTrip(vs: seq<int>, genre: byte, footer: byte)
    requires |vs| == 6 || |vs| == 4
    requires forall k :: 0 <= k < |vs| ==> InInt16Range(vs[k])
    ensures Received([Header, Header, (2 * |vs| + 2) as byte, genre] + Int16Bytes(vs) + [footer], genre as int) == Ok(vs)
  {
    var data := [Header, Header, (2 * |vs| + 2) as byte, genre] + Int16Bytes(vs) + [footer];
    Int16ReplyHeader(data, vs, genre, footer);
    assert data[4..4 + 2 * |vs|] == Int16Bytes(vs);
    ReceivedMultiValueComplete(data, genre as int, 0);
    var r := Received(data, genre as int).value;
    forall k | 0 <= k < |vs|
      ensures r[k] == vs[k]
    {
      Int16ReplyPair(data, vs, k);
      DecodeEncodeInt16(vs[k]);
    }
    assert r == vs;
    assert Received(data, genre as int) == Ok(r);
  }
}
