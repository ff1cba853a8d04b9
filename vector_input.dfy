/**
 * The value-level parts of `VectorProcessor`: turning an input of any accepted kind into a
 * new rank-1 tensor, the shape check of `validateAndNormalize`, and the fixed-length byte
 * padding of `encodeText`.
 */
module VectorInput {
  import opened Wrappers
  import opened Values
  import opened Validation

  /** The default `maxLength` of `encodeText`. */
  const DEFAULT_MAX_LENGTH: nat := 768

  /** `tf.tensor1d(xs)`: a new live rank-1 tensor holding the float32 rounding of each number. */
  function Tensor1d(id: nat, xs: seq<real>, fround: real -> F32): (t: Tensor)
    ensures t.id == id && t.shape == [|xs|] && !t.isDisposed && |t.data| == |xs|
    ensures forall i :: 0 <= i < |xs| ==> t.data[i] == fround(xs[i])
  {
    Tensor(id, [|xs|], seq(|xs|, i requires 0 <= i < |xs| => fround(xs[i])), false)
  }

  /** `Array.from(bytes)`: each byte as the number it denotes. */
  function ByteValues(b: seq<byte>): (xs: seq<real>)
    ensures |xs| == |b| && forall i :: 0 <= i < |b| ==> xs[i] == (b[i] as int) as real
  {
    seq(|b|, i requires 0 <= i < |b| => (b[i] as int) as real)
  }

  /** `input.some(val => typeof val !== 'number')`. */
  function SomeNonNumber(elems: seq<JsValue>): (r: bool)
    ensures r <==> exists i :: 0 <= i < |elems| && !elems[i].Num?
  {
    if elems == [] then false
    else
      assert forall i :: 1 <= i < |elems| ==> elems[1..][i - 1] == elems[i];
      !elems[0].Num? || SomeNonNumber(elems[1..])
  }

  function Numbers(elems: seq<JsValue>): (xs: seq<real>)
    requires forall i :: 0 <= i < |elems| ==> elems[i].Num?
    ensures |xs| == |elems| && forall i :: 0 <= i < |elems| ==> xs[i] == elems[i].n
  {
    seq(|elems|, i requires 0 <= i < |elems| => elems[i].n)
  }

  /**
   * `processInput`, with `nextId` the id the engine gives the next tensor and `fround`
   * the engine's conversion of a number to float32. The branches are tried in the
   * source's order: string, number, array, tensor, anything else.
   */
  function ProcessInput(input: JsValue, nextId: nat, fround: real -> F32): (r: Result<Tensor, ErrorValue>)
    ensures input.Str? ==>
              r.Ok? && r.value == Tensor1d(nextId, ByteValues(input.utf8), fround) &&
              r.value.shape == [|input.utf8|]
    ensures input.Num? ==>
              r.Ok? && r.value.shape == [1] && r.value.data == [fround(input.n)] &&
              r.value.id == nextId && !r.value.isDisposed
    ensures input.Arr? && input.elems == [] ==> r == Err(NewError("Input array cannot be empty"))
    ensures input.Arr? && input.elems != [] && (exists i :: 0 <= i < |input.elems| && !input.elems[i].Num?) ==>
              r == Err(NewError("All array elements must be numbers"))
    ensures input.Arr? && input.elems != [] && (forall i :: 0 <= i < |input.elems| ==> input.elems[i].Num?) ==>
              r.Ok? && r.value.shape == [|input.elems|] && |r.value.data| == |input.elems| &&
              !r.value.isDisposed && r.value.id == nextId &&
              forall i :: 0 <= i < |input.elems| ==> r.value.data[i] == fround(input.elems[i].n)
    ensures input.TensorVal? && input.t.shape == [] ==> r == Err(NewError("Invalid tensor shape"))
    ensures input.TensorVal? && input.t.shape != [] && input.t.isDisposed ==> r == Err(NewError("Tensor is disposed."))
    ensures input.TensorVal? && input.t.shape != [] && !input.t.isDisposed ==>
              r == Ok(Tensor(nextId, input.t.shape, input.t.data, false))
    ensures input.Null? || input.Undefined? || input.Obj? || input.Other? ==> r == Err(NewError("Invalid input type"))
    ensures r.Ok? ==> r.value.id == nextId && !r.value.isDisposed && |r.value.shape| > 0
  {
    match input
    case Str(utf8) => Ok(Tensor1d(nextId, ByteValues(utf8), fround))
    case Num(n) => Ok(Tensor1d(nextId, [n], fround))
    case Arr(elems) =>
      if elems == [] then Err(NewError("Input array cannot be empty"))
      else if SomeNonNumber(elems) then Err(NewError("All array elements must be numbers"))
      else Ok(Tensor1d(nextId, Numbers(elems), fround))
    case TensorVal(t) =>
      if t.shape == [] then Err(NewError("Invalid tensor shape"))
      else if t.isDisposed then Err(NewError("Tensor is disposed."))
      else Ok(Tensor(nextId, t.shape, t.data, false))
    case _ => Err(NewError("Invalid input type"))
  }

  /** A clone is a different handle from the tensor it was cloned from, since that one has an older id. */
  lemma CloneIsNewHandle(t: Tensor, nextId: nat, fround: real -> F32)
    requires t.id < nextId && t.shape != [] && !t.isDisposed
    ensures ProcessInput(TensorVal(t), nextId, fround).Ok?
    ensures ProcessInput(TensorVal(t), nextId, fround).value != t
    ensures ProcessInput(TensorVal(t), nextId, fround).value.shape == t.shape
  {
  }

  function DigitChar(d: nat): char
    requires d < 10
  {
    "0123456789"[d]
  }

  /** The decimal digits of `n`. */
  function NatToString(n: nat): string
  {
    if n < 10 then [DigitChar(n)] else NatToString(n / 10) + [DigitChar(n % 10)]
  }

  /** An integer as JavaScript prints it. */
  function IntToString(i: int): string
  {
    if i < 0 then "-" + NatToString(-i) else NatToString(i)
  }

  /** A number array as a template literal prints it: the entries joined by commas. */
  function JoinShape(s: seq<int>): string
  {
    if s == [] then "" else if |s| == 1 then IntToString(s[0]) else IntToString(s[0]) + "," + JoinShape(s[1..])
  }

  /**
   * `validateAndNormalize`: the shape check of `validateVectorShape` (no liveness test),
   * then the L2 normalisation, which stays the parameter `normalize`.
   */
  /** The error `validateAndNormalize` throws for a shape that does not match. */
  function ShapeError(expected: seq<int>, got: seq<int>): ErrorValue
  {
    NewError("Invalid tensor shape. Expected " + JoinShape(expected) + ", got " + JoinShape(got))
  }

  function ValidateAndNormalize(t: Tensor, expected: seq<int>, normalize: Tensor -> Result<Tensor, ErrorValue>)
    : (r: Result<Tensor, ErrorValue>)
    ensures DimsAgree(t.shape, expected) ==> r == normalize(t)
    ensures !DimsAgree(t.shape, expected) ==>
              r == Err(ShapeError(expected, t.shape))
  {
    if !ShapeMatches(t.shape, expected) then
      Err(ShapeError(expected, t.shape))
    else normalize(t)
  }

  /** Position i holds byte i of the text when i is below both lengths, and 0 otherwise. */
  ghost predicate IsPadded(padded: seq<byte>, encoded: seq<byte>, maxLength: nat)
  {
    |padded| == maxLength &&
    forall i :: 0 <= i < maxLength ==> padded[i] == if i < |encoded| then encoded[i] else 0
  }

  /** The padded encoding as a value. */
  function Padded(encoded: seq<byte>, maxLength: nat): (p: seq<byte>)
    ensures IsPadded(p, encoded, maxLength)
  {
    seq(maxLength, i requires 0 <= i < maxLength => if i < |encoded| then encoded[i] else 0)
  }

  /** The padded encoding is determined by the text and the length. */
  lemma PaddingUnique(a: seq<byte>, b: seq<byte>, encoded: seq<byte>, maxLength: nat)
    requires IsPadded(a, encoded, maxLength) && IsPadded(b, encoded, maxLength)
    ensures a == b
  {
  }

  /** The empty text encodes as `maxLength` zero bytes. */
  lemma EmptyTextPadsWithZeros(padded: seq<byte>, maxLength: nat)
    requires IsPadded(padded, [], maxLength)
    ensures padded == seq(maxLength, _ => 0)
  {
  }

  /**
   * `encodeText`'s buffer: `new Uint8Array(maxLength)` (zero filled), `set` with the first
   * `maxLength` bytes of the text, then the loop that zeroes every position from the text's
   * length on.
   */
  method PadToLength(encoded: seq<byte>, maxLength: nat) returns (padded: seq<byte>)
    ensures IsPadded(padded, encoded, maxLength)
  {
    var buf := new byte[maxLength](_ => 0);
    var n := if |encoded| < maxLength then |encoded| else maxLength;
    for i := 0 to n
      invariant forall k :: 0 <= k < i ==> buf[k] == encoded[k]
      invariant forall k :: i <= k < maxLength ==> buf[k] == 0
    {
      buf[i] := encoded[i];
    }
    var i := |encoded|;
    while i < maxLength
      invariant forall k :: 0 <= k < maxLength ==> buf[k] == if k < |encoded| then encoded[k] else 0
    {
      buf[i] := 0;
      i := i + 1;
    }
    padded := buf[..];
  }
}
