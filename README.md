# pymycobot serial protocol core, in Dafny

This project models the byte-level core of the pymycobot robot-arm driver,
`pymycobot/common.py`. It has four modules:

- `Protocol` (`protocol.dfy`) holds the shared vocabulary:
  - the byte type;
  - the frame header byte `0xFE` and the chatter marker `0xFF`;
  - the command codes `GET_ANGLES` (`0x20`) and `IS_SERVO_ENABLE` (`0x50`);
  - the fast pre-read size 96;
  - a `Result` type whose errors stand for the Python exceptions these paths raise (`IndexError`, `struct.error`, `TypeError`);
  - Python's clamped slice `s[lo:hi]`.
- `Codec` (`codec.dfy`) models the stateless half of `DataProcessor`:
  - `_encode_int8`, `_decode_int8`, `_encode_int16` and `_decode_int16` (struct formats `b` and `>h`);
  - `_flatten` over nested lists;
  - the command payload builder `_process_data_command`;
  - `_process_single`.
- `Decoder` (`decoder.dfy`) models the reply decoder `_process_received`:
  - it scans for the first `FE FE len` header with a positive body length;
  - it compares the command byte with the command that was sent;
  - it decodes the body by its declared length.

  The Python loop is a method, `ProcessReceived`. It is proved equal to a specification function, `Received`. Everything else about the decoder is proved on `Received`.
- `Reader` (`reader.dfy`) models the module-level `read` function that pulls one frame off the serial port:
  - it skips undocumented "mystery" chatter frames (`FF FF instr len body`) and counts them;
  - it drops any other unrecognised 3-byte header;
  - it returns `FE FE len` plus `len` further bytes, or `None` when the body is cut short.

  The port is a class whose `Read(n)` returns at most `n` of the remaining bytes, as `serial.read` does after its timeout. `ReadRound` and `ReadFrame` are methods over that port. They are proved against the specification functions `Round` and `Scan`.

Two behaviours of `read` worth knowing:

- A 3-byte header that is neither `FF FF` nor `FE FE` is dropped: the code logs "bad header", discards the three bytes and keeps reading (`RoundSkipsBadHeader`).
- A reply `FE FE 04 20` followed by only two more bytes is not returned. The length byte asks for four more bytes, so `read` returns `None` (`ChatterThenPartialReply`). With the footer byte as well, the reply is returned and decodes to one value (`ChatterThenReply`, `SampleReplyDecodes`).

## Model

| member | source | states |
|---|---|---|
| Protocol.Slice | pymycobot/common.py:151 | Python's slice `s[lo:hi]`: clamped to the length, empty when `lo` is past the end or past `hi`, and otherwise the elements from `lo` up to `min(hi, len(s))` |
| Codec.EncodeInt8 | pymycobot/common.py:86-87 | succeeds exactly on -128..127; the one byte is the value modulo 256 (two's complement) |
| Codec.DecodeInt8 | pymycobot/common.py:92-93 | succeeds exactly on a one-byte buffer; the result is a signed 8-bit value congruent to the byte modulo 256 |
| Codec.EncodeInt16 | pymycobot/common.py:89-90 | succeeds exactly on -32768..32767; two bytes, most significant first, whose big-endian value is the input modulo 65536 |
| Codec.DecodeInt16 | pymycobot/common.py:95-96 | succeeds exactly on a two-byte buffer; the result is a signed 16-bit value congruent to the big-endian value of the bytes |
| Codec.DecodeEncodeInt8 | pymycobot/common.py:86-93 | decoding the encoding of any in-range value gives the value back |
| Codec.EncodeDecodeInt8 | pymycobot/common.py:86-93 | encoding the decoding of any single byte gives the byte back |
| Codec.DecodeEncodeInt16 | pymycobot/common.py:89-96 | decoding the encoding of any int16 value gives the value back |
| Codec.EncodeDecodeInt16 | pymycobot/common.py:89-96 | encoding the decoding of any two bytes gives the bytes back |
| Codec.Flatten | pymycobot/common.py:110-114 | the result holds no sublist |
| Codec.FlattenAppend | pymycobot/common.py:110-114 | flattening distributes over concatenation, so the leaves keep their left-to-right order |
| Codec.FlattenFlat | pymycobot/common.py:110-114 | a list without sublists flattens to itself; the empty list flattens to the empty list |
| Codec.FlattenIdempotent | pymycobot/common.py:110-114 | flattening twice is the same as flattening once |
| Codec.FlattenSplice | pymycobot/common.py:110-114 | a sublist's leaves appear in its place, between the leaves before and after it |
| Codec.EncodeBlock | pymycobot/common.py:122-123 | a successful encoding has one entry per list element |
| Codec.EncodeArg | pymycobot/common.py:121-123 | a scalar argument passes through unchanged; a list argument becomes a list with one entry per element |
| Codec.ProcessDataCommand | pymycobot/common.py:116-126 | any payload it builds is flat; the Ok/FirstFailure/Append/Scalar/Block/Length lemmas below give its full meaning |
| Codec.EncodeArgs | pymycobot/common.py:121-125 | a successful encoding has one entry per argument |
| Codec.EncodeBlockOk | pymycobot/common.py:122-123 | a list argument encodes exactly when all its elements are scalars in the int16 range; its flattened encoding then reads back pairwise as the list's numbers |
| Codec.EncodeArgsOk | pymycobot/common.py:121-125 | the outer comprehension succeeds exactly on well-formed arguments |
| Codec.ProcessDataCommandOk | pymycobot/common.py:116-126 | `_process_data_command` succeeds exactly on well-formed arguments; a failure without nested lists is struct.error, and a failure with every scalar in range is TypeError |
| Codec.EncodeBlockFirstFailure | pymycobot/common.py:122-123 | for any list, the inner comprehension raises the exception of its first bad element: TypeError for a nested list, struct.error for an out-of-range scalar |
| Codec.EncodeArgsFirstFailure | pymycobot/common.py:121-125 | for any arguments, the outer comprehension raises the exception of the first bad element of the first bad list argument |
| Codec.ProcessDataCommandFirstFailure | pymycobot/common.py:116-126 | for any arguments, `_process_data_command` raises the first failure from the left: the first bad element of the first bad list argument decides between TypeError and struct.error |
| Codec.ProcessDataCommandFailureExamples | pymycobot/common.py:120-125 | two instances: an out-of-range scalar before a nested list gives struct.error, the reverse order TypeError |
| Codec.ProcessDataCommandAppend | pymycobot/common.py:116-126 | the payload of `a + b` is the payload of `a` followed by the payload of `b` |
| Codec.ProcessDataCommandScalar | pymycobot/common.py:116-126 | a scalar argument passes through unchanged |
| Codec.ProcessDataCommandBlock | pymycobot/common.py:116-126 | a list argument becomes two bytes per element that decode pairwise, in order, back to the elements |
| Codec.ProcessDataCommandLength | pymycobot/common.py:116-126 | the payload has one entry per scalar argument and two per list element |
| Codec.ProcessSingle | pymycobot/common.py:169-170 | the first decoded value, or -1 when there is none |
| Decoder.IsFrameHeader | pymycobot/common.py:128-129 | no contract; a predicate used by `FindFrame` and `FirstFrameFound`, which state the scan it drives |
| Decoder.FindFrame | pymycobot/common.py:128-144 | finds a frame start (two header bytes and a length byte above 2) at or after the start index, with none before it; when none is found, no index qualifies |
| Decoder.FirstFrameFound | pymycobot/common.py:138-144 | the scan stops at the first frame start of the data |
| Decoder.DecodeInt16Pairs | pymycobot/common.py:157-160 | succeeds exactly on an even-length body, and otherwise fails with struct.error; value `k` is the int16 of byte pair `k` |
| Decoder.DecodePayload | pymycobot/common.py:155-167 | body decoding fails only with struct.error, and outside the 12- and 8-byte cases yields exactly one value |
| Decoder.Received | pymycobot/common.py:131-167 | `_process_received` raises only IndexError or struct.error; the Received* lemmas below state each branch |
| Decoder.ProcessReceived | pymycobot/common.py:131-151 | the imperative scan with its for/else returns exactly `Received(data, genre)` |
| Decoder.DecodeBody | pymycobot/common.py:155-167 | the imperative body decoder returns exactly what the declared body length and the command call for |
| Decoder.FrameBody | pymycobot/common.py:150-151 | the body slice holds at most the declared number of bytes |
| Decoder.ReceivedAtFirstFrame | pymycobot/common.py:138-151 | at the first frame start: IndexError when no command byte follows, `[]` for another command, and otherwise the decoding of the body slice |
| Decoder.ReceivedWithoutFrame | pymycobot/common.py:132-144 | data without a frame start, the empty input included, gives `[]` |
| Decoder.ReceivedIndexError | pymycobot/common.py:147 | IndexError is raised exactly when the first frame start is the last index the scan visits |
| Decoder.ReceivedCommandMismatch | pymycobot/common.py:147-149 | a reply to another command gives `[]`, which `_process_single` turns into -1 |
| Decoder.ReceivedMultiValue | pymycobot/common.py:157-160 | with length byte 14 or 10: Ok exactly when the body slice has even length, otherwise struct.error; value `k` is the int16 of body pair `k` |
| Decoder.ReceivedMultiValueComplete | pymycobot/common.py:150-160 | a complete 12- or 8-byte body always decodes, to `body_len / 2` values, each the int16 of its pair of frame bytes |
| Decoder.ReceivedServoEnable | pymycobot/common.py:161-163 | for `IS_SERVO_ENABLE` with length byte 4: Ok exactly when the second body byte is present, and then the int8 of that byte; otherwise struct.error |
| Decoder.ReceivedInt16 | pymycobot/common.py:161-164 | any other command with length byte 4: Ok exactly when both body bytes are present, and then their int16; otherwise struct.error |
| Decoder.ReceivedInt8 | pymycobot/common.py:165-166 | every other length: Ok exactly when the body slice is one byte, and then its int8; otherwise struct.error; a complete 1-byte body always decodes |
| Decoder.ReceivedIgnoresTrailingBytes | pymycobot/common.py:150-153 | bytes after a complete body, the footer included, do not change the result |
| Decoder.Int16Bytes | pymycobot/common.py:89-90 | the concatenated int16 encodings are two bytes per value |
| Decoder.Int16BytesPair | pymycobot/common.py:89-90 | byte pair `k` of the concatenation is the encoding of value `k` |
| Decoder.ReceivedInt16RoundTrip | pymycobot/common.py:131-167 | a 4- or 6-value reply whose body is the int16 encodings of the values decodes back to exactly those values, whatever the footer |
| Reader.SerialPort.constructor | pymycobot/common.py:186 | a port over a given byte stream, with nothing read yet |
| Reader.SerialPort.Read | pymycobot/common.py:191-208 | returns the next `n` bytes, or all that remain, and advances past them |
| Reader.Round | pymycobot/common.py:190-216 | one round of the loop either goes on from at least three bytes further, with the counter never decreasing, or ends the loop with the counter unchanged |
| Reader.Scan | pymycobot/common.py:190-216 | the loop ends at or after its start position, within the stream, with the counter never decreasing |
| Reader.StartPos | pymycobot/common.py:187-188 | the fast pre-read skips exactly 96 bytes, or all that remain when fewer do, and nothing when switched off |
| Reader.ReadRound | pymycobot/common.py:191-216 | the imperative round on the port gives exactly `Round` of the stream at the old position, and leaves the port where that round ends |
| Reader.ReadFrame | pymycobot/common.py:186-216 | the imperative `read` gives exactly the outcome and chatter count of `Scan` from after the optional pre-read, and leaves the port where the scan ends |
| Reader.NoiseSize | pymycobot/common.py:191-216 | a chatter frame or bad header occupies exactly as many bytes as its wire form |
| Reader.RoundSkipsChatter | pymycobot/common.py:192-203 | a chatter frame is consumed in one round and adds three per body byte to the counter |
| Reader.RoundSkipsBadHeader | pymycobot/common.py:215-216 | any other 3-byte header is dropped whole and the loop goes on |
| Reader.RoundSkipsNoise | pymycobot/common.py:191-216 | one chatter frame or bad header does not change where the loop ends |
| Reader.ScanSkipsNoise | pymycobot/common.py:190-216 | any run of chatter frames and bad headers is skipped, adding `3 * len` to the counter for each chatter frame |
| Reader.ReadsFrameAfterNoise | pymycobot/common.py:204-214 | after any noise, a frame header with its full body is returned as exactly those `3 + len` stream bytes |
| Reader.IncompleteAfterNoise | pymycobot/common.py:208-211 | after any noise, a frame whose body is cut short gives `None` |
| Reader.StuckAfterNoise | pymycobot/common.py:191-216 | after any noise, fewer than three remaining bytes leave the loop logging "bad header" for ever |
| Reader.IndexFaultAfterNoise | pymycobot/common.py:199-201 | after any noise, a chatter header that ends the stream raises the IndexError of `length[0]` |
| Reader.ScanFrameShape | pymycobot/common.py:204-214 | any frame `read` returns is `FE FE len` plus exactly `len` bytes, read contiguously and ending where reading stopped |
| Reader.FrameReceived | pymycobot/common.py:131-214 | a returned frame handed to `_process_received`: length 2 or less gives `[]`, another command gives `[]`, and otherwise its body is every byte between the command byte and the unchecked footer |
| Reader.ReadFrameNeverIndexError | pymycobot/common.py:186-216 | whatever arrives, a frame `read` returns never makes `_process_received` raise IndexError |
| Reader.ChatterThenPartialReply | pymycobot/common.py:186-216 | chatter `FF FF 01 02 10 11`, then `FE FE 04 20 01 02`: `None`, with 6 mystery bytes counted |
| Reader.ChatterThenReply | pymycobot/common.py:186-216 | the same stream with the footer `FA`: the 7-byte reply is returned |
| Reader.SampleReplyDecodes | pymycobot/common.py:131-167 | that reply decodes, for the angle query, to the single value 0x0102 |

## Left out

- `write`: it only hands bytes to the serial port and waits for the output buffer to drain. Neither step has anything to prove.
- The float conversions `_angle2int`, `_coord2int`, `_int2angle` and `_int2coord`: they are floating-point scaling and rounding.
- Logging: the `log.debug` and `log.error` calls have no effect on the results.
- The rest of the `ProtocolCode` table: only the header byte and `IS_SERVO_ENABLE` matter here. `GET_ANGLES` is used only for the sample reply.
- The footer byte `0xFA`: the source never checks it. The model does not check it either, and `ReceivedIgnoresTrailingBytes` proves that it has no effect.
- `Codec.ProcessDataCommand`: arguments are integers or nested lists of them. `int()` on floats and strings is not modelled. Only the TypeError of `int()` on a list is modelled.
- `Reader.Scan`: the source's endless loop on a port that keeps returning fewer than three bytes is modelled as the outcome `Stuck`. The model does not spin.
- `Reader.Scan`: the IndexError of `length[0]` after a chatter header is modelled as the outcome `IndexFault`.
- `Reader.SerialPort`: the port's timeout is modelled by a finite byte stream. A read past its end returns what is left. Timing and bytes arriving later are not modelled.
- `Decoder.IsFrameHeader` takes as a precondition that `pos + 1` is in range. The only caller, the scan loop, always meets it.
- `Decoder.ProcessReceived`: a `None` argument (a failed `read`) is modelled as empty data. Both give `[]`.
- `Reader.ReadFrame`: the driver object that owns the port is left out. The port is passed in directly.
