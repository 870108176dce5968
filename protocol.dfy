/** Shared vocabulary of the serial wire protocol: the byte type, the protocol
    codes the core depends on, and the failure-carrying result types that stand
    for the exceptions the Python code raises. */
module Protocol {

  /** A byte as Python's `bytes`/`bytearray` exposes it: an int in [0, 256). */
  type byte = b: int | 0 <= b < 256

  /** Marker byte of a real frame; a frame starts with two of them. */
  const Header: byte := 0xFE

  /** Marker byte of the undocumented "mystery" chatter frames. */
  const ChatterMarker: byte := 0xFF

  /** Command code of the angle query (a 12-byte body of six int16 values). */
  const GetAngles: byte := 0x20

  /** Command code whose 2-byte reply carries its value in the second byte only. */
  const IsServoEnable: byte := 0x50

  /** Number of bytes discarded up front when the fast pre-read is switched on. */
  const FastReadSize: nat := 96

  /** The exceptions the Python code can raise on the paths modelled here. */
  datatype Error =
    | IndexError   // indexing past the end of a list or bytearray
    | StructError  // struct.pack/unpack with an out-of-range value or a wrong-length buffer
    | TypeError    // int() applied to a list

  datatype Result<T> = Ok(value: T) | Err(error: Error)

  datatype Option<T> = None | Some(value: T)

  function Min(a: int, b: int): int {
    if a <= b then a else b
  }

  /** Python's slice `s[lo:hi]` for 0 <= lo: both ends are clamped to the length. */
  function Slice<T>(s: seq<T>, lo: nat, hi: nat): (r: seq<T>)
    ensures |r| == if lo <= hi && lo <= |s| then Min(hi, |s|) - lo else 0
    ensures lo <= hi && lo <= |s| ==> r == s[lo..Min(hi, |s|)]
  {
    if lo <= hi && lo <= |s| then s[lo..Min(hi, |s|)] else []
  }
}
