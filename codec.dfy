/** The stateless codec of `DataProcessor`: signed 8- and 16-bit integers to and
    from bytes (struct formats "b" and ">h"), flattening of nested argument
    lists, the command payload builder and the single-value accessor. */
module Codec {
  import opened Protocol

  predicate InInt8Range(v: int) { -128 <= v <= 127 }

  predicate InInt16Range(v: int) { -32768 <= v <= 32767 }

  /** `struct.pack("b", v)`: one two's-complement byte, or struct.error. */
  function EncodeInt8(v: int): (r: Result<seq<byte>>)
    ensures r.Ok? <==> InInt8Range(v)
    ensures r.Ok? ==> |r.value| == 1 && r.value[0] % 256 == v % 256
  {
    if !InInt8Range(v) then Err(StructError)
    else Ok([if v < 0 then v + 256 else v])
  }

  /** `struct.unpack("b", data)[0]`: needs exactly one byte. */
  function DecodeInt8(data: seq<byte>): (r: Result<int>)
    ensures r.Ok? <==> |data| == 1
    ensures r.Ok? ==> InInt8Range(r.value) && r.value % 256 == data[0]
  {
    if |data| != 1 then Err(StructError)
    else Ok(if data[0] >= 128 then data[0] as int - 256 else data[0])
  }

  /** `list(struct.pack(">h", v))`: two bytes, most significant first, or struct.error. */
  function EncodeInt16(v: int): (r: Result<seq<byte>>)
    ensures r.Ok? <==> InInt16Range(v)
    ensures r.Ok? ==> |r.value| == 2 && (r.value[0] as int * 256 + r.value[1]) % 65536 == v % 65536
  {
    if !InInt16Range(v) then Err(StructError)
    else
      var u := if v < 0 then v + 65536 else v;
      Ok([u / 256, u % 256])
  }

  /** `struct.unpack(">h", data)[0]`: needs exactly two bytes, read big-endian. */
  function DecodeInt16(data: seq<byte>): (r: Result<int>)
    ensures r.Ok? <==> |data| == 2
    ensures r.Ok? ==> InInt16Range(r.value) && r.value % 65536 == data[0] as int * 256 + data[1]
  {
    if |data| != 2 then Err(StructError)
    else
      var u := data[0] as int * 256 + data[1];
      Ok(if u >= 32768 then u - 65536 else u)
  }

  lemma DecodeEncodeInt8(v: int)
    requires InInt8Range(v)
    ensures EncodeInt8(v).Ok? && DecodeInt8(EncodeInt8(v).value) == Ok(v)
  {
  }

  lemma EncodeDecodeInt8(data: seq<byte>)
    requires |data| == 1
    ensures DecodeInt8(data).Ok? && EncodeInt8(DecodeInt8(data).value) == Ok(data)
  {
    assert data == [data[0]];
  }

  lemma DecodeEncodeInt16(v: int)
    requires InInt16Range(v)
    ensures EncodeInt16(v).Ok? && DecodeInt16(EncodeInt16(v).value) == Ok(v)
  {
  }

  lemma EncodeDecodeInt16(data: seq<byte>)
    requires |data| == 2
    ensures DecodeInt16(data).Ok? && EncodeInt16(DecodeInt16(data).value) == Ok(data)
  {
    assert data == [data[0], data[1]];
  }

  // ---------------------------------------------------------------------------
  // Nested lists

  /** A Python argument value: a scalar, or a (possibly nested) list. Scalars
      are ints; the codec never looks inside them. */
  datatype Value = Atom(n: int) | List(elems: seq<Value>)

  predicate IsFlat(xs: seq<Value>) {
    forall i :: 0 <= i < |xs| ==> xs[i].Atom?
  }

  /** `_flatten`: the leaves of a nested list, left to right. */
  function Flatten(xs: seq<Value>): (r: seq<Value>)
    ensures IsFlat(r)
    decreases xs
  {
    if xs == [] then []
    else
      var head := if xs[0].Atom? then [xs[0]] else Flatten(xs[0].elems);
      head + Flatten(xs[1..])
  }

  /** Flattening distributes over concatenation, so leaves keep their order. */
  lemma {:induction false} FlattenAppend(a: seq<Value>, b: seq<Value>)
    ensures Flatten(a + b) == Flatten(a) + Flatten(b)
    decreases a
  {
    if a == [] {
      assert a + b == b;
    } else {
      assert (a + b)[0] == a[0];
      assert (a + b)[1..] == a[1..] + b;
      FlattenAppend(a[1..], b);
    }
  }

  /** A list without sublists flattens to itself; in particular `_flatten([]) == []`. */
  lemma {:induction false} FlattenFlat(xs: seq<Value>)
    requires IsFlat(xs)
    ensures Flatten(xs) == xs
    decreases xs
  {
    if xs != [] {
      FlattenFlat(xs[1..]);
      assert [xs[0]] + xs[1..] == xs;
    }
  }

  /** `_flatten(_flatten(x)) == _flatten(x)`. */
  lemma FlattenIdempotent(xs: seq<Value>)
    ensures Flatten(Flatten(xs)) == Flatten(xs)
  {
    FlattenFlat(Flatten(xs));
  }

  /** A sublist is spliced in place: its own leaves appear where it stood. */
  lemma FlattenSplice(a: seq<Value>, ys: seq<Value>, b: seq<Value>)
    ensures Flatten(a + [List(ys)] + b) == Flatten(a) + Flatten(ys) + Flatten(b)
  {
    FlattenAppend(a + [List(ys)], b);
    FlattenAppend(a, [List(ys)]);
    assert [List(ys)][1..] == [];
  }

  // ---------------------------------------------------------------------------
  // Command payloads

  /** `[self._encode_int16(int(i)) for i in x]`: each element becomes the
      two-element list of its big-endian bytes. `int()` of a list is a
      TypeError; an out-of-range value is a struct.error; the first failure
      in left-to-right order is raised. */
  function EncodeBlock(elems: seq<Value>): (r: Result<seq<Value>>)
    ensures r.Ok? ==> |r.value| == |elems|
    decreases elems
  {
    if elems == [] then Ok([])
    else if elems[0].List? then Err(TypeError)
    else match EncodeInt16(elems[0].n)
      case Err(e) => Err(e)
      case Ok(bytes) =>
        match EncodeBlock(elems[1..])
        case Err(e) => Err(e)
        case Ok(rest) => Ok([List([Atom(bytes[0]), Atom(bytes[1])])] + rest)
  }

  /** One element of the outer comprehension of `_process_data_command`: a
      list argument is replaced by its encoded block, a scalar passes through
      unchanged. */
  function EncodeArg(x: Value): (r: Result<Value>)
    ensures x.Atom? ==> r == Ok(x)
    ensures x.List? && r.Ok? ==> r.value.List? && |r.value.elems| == |x.elems|
  {
    if x.Atom? then Ok(x)
    else match EncodeBlock(x.elems)
      case Err(e) => Err(e)
      case Ok(block) => Ok(List(block))
  }

  /** The outer comprehension, evaluated left to right. */
  function EncodeArgs(args: seq<Value>): (r: Result<seq<Value>>)
    ensures r.Ok? ==> |r.value| == |args|
    decreases args
  {
    if args == [] then Ok([])
    else match EncodeArg(args[0])
      case Err(e) => Err(e)
      case Ok(h) =>
        match EncodeArgs(args[1..])
        case Err(e) => Err(e)
        case Ok(rest) => Ok([h] + rest)
  }

  /** `_process_data_command`. */
  function ProcessDataCommand(args: seq<Value>): (r: Result<seq<Value>>)
    ensures r.Ok? ==> IsFlat(r.value)
  {
    if args == [] then Ok([])
    else match EncodeArgs(args)
      case Err(e) => Err(e)
      case Ok(encoded) => Ok(Flatten(encoded))
  }

  /** The arguments a command can be built from: every list argument holds
      only scalars, each within the signed 16-bit range. */
  predicate WellFormedArgs(args: seq<Value>) {
    forall i, j :: 0 <= i < |args| && args[i].List? && 0 <= j < |args[i].elems| ==>
      args[i].elems[j].Atom? && InInt16Range(args[i].elems[j].n)
  }

  /** No list argument holds a list: `int()` never meets a list. */
  predicate NoNestedLists(args: seq<Value>) {
    forall i, j :: 0 <= i < |args| && args[i].List? && 0 <= j < |args[i].elems| ==> args[i].elems[j].Atom?
  }

  /** Every scalar inside a list argument fits a signed 16-bit value. */
  predicate ScalarsInRange(args: seq<Value>) {
    forall i, j :: 0 <= i < |args| && args[i].List? && 0 <= j < |args[i].elems| && args[i].elems[j].Atom? ==>
      InInt16Range(args[i].elems[j].n)
  }

  /** Number of scalar arguments plus twice the number of list elements. */
  function PayloadLength(args: seq<Value>): nat {
    if args == [] then 0
    else (if args[0].List? then 2 * |args[0].elems| else 1) + PayloadLength(args[1..])
  }

  /** The bytes of a block, read back pairwise, give the block's numbers. */
  predicate EncodesBlock(out: seq<Value>, elems: seq<Value>) {
    && |out| == 2 * |elems|
    && IsFlat(out)
    && (forall k :: 0 <= k < |out| ==> 0 <= out[k].n < 256)
    && forall j :: 0 <= j < |elems| ==>
         elems[j].Atom? && DecodeInt16([out[2 * j].n, out[2 * j + 1].n]) == Ok(elems[j].n)
  }

  /** One encoded element flattens to its two bytes, ahead of the rest. */
  lemma FlattenEncodedCons(b0: int, b1: int, rest: seq<Value>)
    ensures Flatten([List([Atom(b0), Atom(b1)])] + rest) == [Atom(b0), Atom(b1)] + Flatten(rest)
  {
    FlattenAppend([List([Atom(b0), Atom(b1)])], rest);
    FlattenFlat([Atom(b0), Atom(b1)]);
    assert [List([Atom(b0), Atom(b1)])][1..] == [];
  }

  lemma {:induction false} EncodeBlockOk(elems: seq<Value>)
    ensures EncodeBlock(elems).Ok? <==>
              forall j :: 0 <= j < |elems| ==> elems[j].Atom? && InInt16Range(elems[j].n)
    ensures EncodeBlock(elems).Ok? ==> EncodesBlock(Flatten(EncodeBlock(elems).value), elems)
    decreases elems
  {
    if elems != [] {
      EncodeBlockOk(elems[1..]);
      if elems[0].Atom? && InInt16Range(elems[0].n) && EncodeBlock(elems[1..]).Ok? {
        var bytes := EncodeInt16(elems[0].n).value;
        DecodeEncodeInt16(elems[0].n);
        assert bytes == [bytes[0], bytes[1]];
        var rest := EncodeBlock(elems[1..]).value;
        FlattenEncodedCons(bytes[0], bytes[1], rest);
        BlockCons(bytes[0], bytes[1], Flatten(rest), elems);
      }
    }
  }

  lemma BlockCons(b0: byte, b1: byte, outRest: seq<Value>, elems: seq<Value>)
    requires |elems| > 0 && elems[0].Atom? && DecodeInt16([b0, b1]) == Ok(elems[0].n)
    requires EncodesBlock(outRest, elems[1..])
    ensures EncodesBlock([Atom(b0), Atom(b1)] + outRest, elems)
  {
    var out := [Atom(b0), Atom(b1)] + outRest;
    forall j | 0 <= j < |elems|
      ensures elems[j].Atom? && DecodeInt16([out[2 * j].n, out[2 * j + 1].n]) == Ok(elems[j].n)
    {
      if j > 0 {
        assert out[2 * j] == outRest[2 * (j - 1)];
        assert out[2 * j + 1] == outRest[2 * (j - 1) + 1];
        assert elems[j] == elems[1..][j - 1];
      }
    }
  }

  /** `_process_data_command` succeeds exactly on well-formed arguments
      (an empty argument list included). When it fails without any nested
      list the failure is struct.error, and when it fails with every scalar
      in range it is the TypeError of `int()` on a list. */
  lemma ProcessDataCommandOk(args: seq<Value>)
    ensures ProcessDataCommand(args).Ok? <==> WellFormedArgs(args)
    ensures ProcessDataCommand(args).Err? && NoNestedLists(args) ==> ProcessDataCommand(args).error == StructError
    ensures ProcessDataCommand(args).Err? && ScalarsInRange(args) ==> ProcessDataCommand(args).error == TypeError
  {
    EncodeArgsOk(args);
    EncodeArgsError(args);
  }

  /** A list element `int()` and `struct.pack(">h")` both accept. */
  predicate GoodElem(x: Value) {
    x.Atom? && InInt16Range(x.n)
  }

  /** An argument the outer comprehension accepts: a scalar, or a list of
      good elements. */
  predicate GoodArg(x: Value) {
    x.Atom? || forall j :: 0 <= j < |x.elems| ==> GoodElem(x.elems[j])
  }

  /** The exception a bad list element raises: `int()` of a list is a
      TypeError, an out-of-range scalar a struct.error. */
  function ElemError(x: Value): Error {
    if x.List? then TypeError else StructError
  }

  /** The inner comprehension raises the exception of its first bad element. */
  lemma {:induction false} EncodeBlockFirstFailure(elems: seq<Value>, j: nat)
    requires j < |elems| && !GoodElem(elems[j])
    requires forall k :: 0 <= k < j ==> GoodElem(elems[k])
    ensures EncodeBlock(elems) == Err(ElemError(elems[j]))
    decreases elems
  {
    if j > 0 {
      assert GoodElem(elems[0]);
      assert forall k :: 0 <= k < j - 1 ==> elems[1..][k] == elems[k + 1];
      EncodeBlockFirstFailure(elems[1..], j - 1);
    }
  }

  /** The outer comprehension raises the exception of the first bad element
      of its first bad argument. */
  lemma {:induction false} EncodeArgsFirstFailure(args: seq<Value>, i: nat, j: nat)
    requires i < |args| && args[i].List? && j < |args[i].elems|
    requires !GoodElem(args[i].elems[j]) && forall k :: 0 <= k < j ==> GoodElem(args[i].elems[k])
    requires forall h :: 0 <= h < i ==> GoodArg(args[h])
    ensures EncodeArgs(args) == Err(ElemError(args[i].elems[j]))
    decreases args
  {
    if i == 0 {
      EncodeBlockFirstFailure(args[0].elems, j);
    } else {
      assert GoodArg(args[0]);
      if args[0].List? {
        EncodeBlockOk(args[0].elems);
      }
      assert EncodeArg(args[0]).Ok?;
      assert forall h :: 0 <= h < i - 1 ==> args[1..][h] == args[h + 1];
      EncodeArgsFirstFailure(args[1..], i - 1, j);
    }
  }

  /** `_process_data_command` raises the first failure from the left: with
      every argument before the `i`-th good and every element of the `i`-th
      list before the `j`-th good, a bad `j`-th element decides the
      exception. */
  lemma ProcessDataCommandFirstFailure(args: seq<Value>, i: nat, j: nat)
    requires i < |args| && args[i].List? && j < |args[i].elems|
    requires !GoodElem(args[i].elems[j]) && forall k :: 0 <= k < j ==> GoodElem(args[i].elems[k])
    requires forall h :: 0 <= h < i ==> GoodArg(args[h])
    ensures ProcessDataCommand(args) == Err(ElemError(args[i].elems[j]))
  {
    EncodeArgsFirstFailure(args, i, j);
  }

  /** Two instances: an out-of-range scalar ahead of a nested list is a
      struct.error, a nested list ahead of an out-of-range scalar a
      TypeError. */
  lemma ProcessDataCommandFailureExamples()
    ensures ProcessDataCommand([List([Atom(70000), List([])])]) == Err(StructError)
    ensures ProcessDataCommand([List([List([]), Atom(70000)])]) == Err(TypeError)
  {
    ProcessDataCommandFirstFailure([List([Atom(70000), List([])])], 0, 0);
    ProcessDataCommandFirstFailure([List([List([]), Atom(70000)])], 0, 0);
  }

  lemma {:induction false} EncodeBlockError(elems: seq<Value>)
    ensures EncodeBlock(elems).Err? && (forall j :: 0 <= j < |elems| ==> elems[j].Atom?) ==>
              EncodeBlock(elems).error == StructError
    ensures EncodeBlock(elems).Err? && (forall j :: 0 <= j < |elems| && elems[j].Atom? ==> InInt16Range(elems[j].n)) ==>
              EncodeBlock(elems).error == TypeError
    decreases elems
  {
    if elems != [] {
      EncodeBlockError(elems[1..]);
      assert forall j :: 0 <= j < |elems[1..]| ==> elems[1..][j] == elems[j + 1];
    }
  }

  lemma {:induction false} EncodeArgsError(args: seq<Value>)
    ensures EncodeArgs(args).Err? && NoNestedLists(args) ==> EncodeArgs(args).error == StructError
    ensures EncodeArgs(args).Err? && ScalarsInRange(args) ==> EncodeArgs(args).error == TypeError
    decreases args
  {
    if args != [] {
      EncodeArgsError(args[1..]);
      assert forall i :: 0 <= i < |args[1..]| ==> args[1..][i] == args[i + 1];
      if args[0].List? {
        EncodeBlockError(args[0].elems);
      }
    }
  }

  lemma {:induction false} EncodeArgsOk(args: seq<Value>)
    ensures EncodeArgs(args).Ok? <==> WellFormedArgs(args)
    decreases args
  {
    if args != [] {
      EncodeArgsOk(args[1..]);
      if args[0].List? {
        EncodeBlockOk(args[0].elems);
      }
      assert WellFormedArgs(args) <==>
        (WellFormedArgs(args[..1]) && WellFormedArgs(args[1..])) by {
        if WellFormedArgs(args[..1]) && WellFormedArgs(args[1..]) {
          forall i, j | 0 <= i < |args| && args[i].List? && 0 <= j < |args[i].elems|
            ensures args[i].elems[j].Atom? && InInt16Range(args[i].elems[j].n)
          {
            if i > 0 { assert args[i] == args[1..][i - 1]; }
            else { assert args[i] == args[..1][0]; }
          }
        }
        if WellFormedArgs(args) {
          forall i, j | 0 <= i < |args[1..]| && args[1..][i].List? && 0 <= j < |args[1..][i].elems|
            ensures args[1..][i].elems[j].Atom? && InInt16Range(args[1..][i].elems[j].n)
          {
            assert args[1..][i] == args[i + 1];
          }
        }
      }
    }
  }

  lemma WellFormedArgsAppend(a: seq<Value>, b: seq<Value>)
    ensures WellFormedArgs(a + b) <==> WellFormedArgs(a) && WellFormedArgs(b)
  {
    if WellFormedArgs(a + b) {
      forall i, j | 0 <= i < |a| && a[i].List? && 0 <= j < |a[i].elems|
        ensures a[i].elems[j].Atom? && InInt16Range(a[i].elems[j].n)
      {
        assert a[i] == (a + b)[i];
      }
      forall i, j | 0 <= i < |b| && b[i].List? && 0 <= j < |b[i].elems|
        ensures b[i].elems[j].Atom? && InInt16Range(b[i].elems[j].n)
      {
        assert b[i] == (a + b)[|a| + i];
      }
    }
  }

  lemma {:induction false} EncodeArgsAppend(a: seq<Value>, b: seq<Value>)
    requires EncodeArgs(a).Ok? && EncodeArgs(b).Ok?
    ensures EncodeArgs(a + b) == Ok(EncodeArgs(a).value + EncodeArgs(b).value)
    decreases a
  {
    if a == [] {
      assert a + b == b;
      assert EncodeArgs(a).value + EncodeArgs(b).value == EncodeArgs(b).value;
    } else {
      assert (a + b)[0] == a[0];
      assert (a + b)[1..] == a[1..] + b;
      assert EncodeArgs(a[1..]).Ok?;
      EncodeArgsAppend(a[1..], b);
      var h := EncodeArgs(a).value[0];
      assert EncodeArgs(a).value == [h] + EncodeArgs(a[1..]).value;
      assert EncodeArgs(a + b).value == [h] + EncodeArgs(a[1..] + b).value;
      assert [h] + (EncodeArgs(a[1..]).value + EncodeArgs(b).value)
          == ([h] + EncodeArgs(a[1..]).value) + EncodeArgs(b).value;
    }
  }

  /** Payloads compose: the payload of `a + b` is that of `a` followed by that of `b`. */
  lemma ProcessDataCommandAppend(a: seq<Value>, b: seq<Value>)
    requires WellFormedArgs(a) && WellFormedArgs(b)
    ensures ProcessDataCommand(a).Ok? && ProcessDataCommand(b).Ok?
    ensures ProcessDataCommand(a + b) == Ok(ProcessDataCommand(a).value + ProcessDataCommand(b).value)
  {
    EncodeArgsOk(a);
    EncodeArgsOk(b);
    ProcessDataCommandOk(a);
    ProcessDataCommandOk(b);
    EncodeArgsAppend(a, b);
    FlattenAppend(EncodeArgs(a).value, EncodeArgs(b).value);
    if a == [] { assert a + b == b; }
    if b == [] { assert a + b == a; }
  }

  /** A scalar argument passes through unchanged. */
  lemma ProcessDataCommandScalar(n: int)
    ensures ProcessDataCommand([Atom(n)]) == Ok([Atom(n)])
  {
    assert [Atom(n)][1..] == [];
    assert EncodeArgs([Atom(n)][1..]) == Ok([]);
    assert [Atom(n)] + [] == [Atom(n)];
    assert EncodeArgs([Atom(n)]) == Ok([Atom(n)]);
    FlattenFlat([Atom(n)]);
  }

  /** A list argument becomes the big-endian int16 bytes of its elements, in
      order: reading the output back pairwise gives the list. */
  lemma ProcessDataCommandBlock(elems: seq<Value>)
    requires forall j :: 0 <= j < |elems| ==> elems[j].Atom? && InInt16Range(elems[j].n)
    ensures ProcessDataCommand([List(elems)]).Ok?
    ensures EncodesBlock(ProcessDataCommand([List(elems)]).value, elems)
  {
    EncodeBlockOk(elems);
    var block := EncodeBlock(elems).value;
    assert [List(elems)][1..] == [];
    assert EncodeArgs([List(elems)][1..]) == Ok([]);
    assert [List(block)] + [] == [List(block)];
    assert EncodeArgs([List(elems)]) == Ok([List(block)]);
    FlattenSplice([], block, []);
    assert [] + [List(block)] + [] == [List(block)];
  }

  /** The payload has one entry per scalar and two per list element. */
  lemma {:induction false} ProcessDataCommandLength(args: seq<Value>)
    requires WellFormedArgs(args)
    ensures ProcessDataCommand(args).Ok?
    ensures |ProcessDataCommand(args).value| == PayloadLength(args)
    decreases args
  {
    ProcessDataCommandOk(args);
    if args != [] {
      assert args == [args[0]] + args[1..];
      WellFormedArgsAppend([args[0]], args[1..]);
      ProcessDataCommandLength(args[1..]);
      ProcessDataCommandAppend([args[0]], args[1..]);
      if args[0].List? {
        assert forall j :: 0 <= j < |args[0].elems| ==>
          args[0].elems[j].Atom? && InInt16Range(args[0].elems[j].n) by {
          assert [args[0]][0] == args[0];
        }
        ProcessDataCommandBlock(args[0].elems);
        assert [List(args[0].elems)] == [args[0]];
      } else {
        ProcessDataCommandScalar(args[0].n);
        assert [Atom(args[0].n)] == [args[0]];
      }
    }
  }

  /** `_process_single`: the first decoded value, or -1 for an empty reply. */
  function ProcessSingle(data: seq<int>): (r: int)
    ensures data != [] ==> r == data[0]
    ensures data == [] ==> r == -1
  {
    if data != [] then data[0] else -1
  }
}
