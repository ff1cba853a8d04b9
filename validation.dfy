/** Structural checks on tensor handles: liveness, and shape matching with a -1 wildcard. */
module Validation {
  import opened Values

  /** `checkNullOrUndefined`: the value is `null` or `undefined`. */
  function CheckNullOrUndefined(v: JsValue): (r: bool)
    ensures r <==> v in {Null, Undefined}
  {
    v.Null? || v.Undefined?
  }

  /** `validateTensor`: the handle is present and its tensor has not been disposed. */
  function ValidateTensor(v: TensorArg): (r: bool)
    ensures r <==> v.TensorVal? && !v.t.isDisposed
    ensures v == Null || v == Undefined ==> !r
  {
    !CheckNullOrUndefined(v) && !v.t.isDisposed
  }

  /** Every dimension is matched: each expected entry is the wildcard -1 or equals the actual size. */
  ghost predicate DimsAgree(shape: seq<int>, expected: seq<int>)
  {
    |shape| == |expected| &&
    forall i :: 0 <= i < |shape| ==> expected[i] == -1 || expected[i] == shape[i]
  }

  /** `shape.every((dim, i) => expected[i] === -1 || expected[i] === dim)`, scanning from index `i` on. */
  function EveryDimFrom(shape: seq<int>, expected: seq<int>, i: nat): bool
    requires |shape| == |expected| && i <= |shape|
    decreases |shape| - i
  {
    i == |shape| || ((expected[i] == -1 || expected[i] == shape[i]) && EveryDimFrom(shape, expected, i + 1))
  }

  /** The scan from `i` succeeds exactly when every dimension from `i` on is matched. */
  lemma {:induction false} EveryDimFromIff(shape: seq<int>, expected: seq<int>, i: nat)
    requires |shape| == |expected| && i <= |shape|
    ensures EveryDimFrom(shape, expected, i) <==>
            forall k :: i <= k < |shape| ==> expected[k] == -1 || expected[k] == shape[k]
    decreases |shape| - i
  {
    if i < |shape| {
      EveryDimFromIff(shape, expected, i + 1);
    }
  }

  /** The rank test followed by the per-dimension scan, shared by both shape validators. */
  function ShapeMatches(shape: seq<int>, expected: seq<int>): (r: bool)
    ensures r <==> DimsAgree(shape, expected)
  {
    if |shape| != |expected| then false
    else
      EveryDimFromIff(shape, expected, 0);
      EveryDimFrom(shape, expected, 0)
  }

  /**
   * `validateTensorShape`: false for a null, undefined or disposed handle whatever the
   * expected shape; otherwise the ranks agree and every non-wildcard dimension is equal.
   */
  function ValidateTensorShape(v: TensorArg, expected: seq<int>): (r: bool)
    ensures r <==> v.TensorVal? && !v.t.isDisposed && DimsAgree(v.t.shape, expected)
  {
    if !ValidateTensor(v) then false else ShapeMatches(v.t.shape, expected)
  }

  /** A live tensor matches its own shape. */
  lemma LiveTensorMatchesOwnShape(t: Tensor)
    requires !t.isDisposed
    ensures ValidateTensorShape(TensorVal(t), t.shape)
  {
  }

  /** Changing one non-wildcard expected dimension of a live tensor's own shape makes the check fail. */
  lemma OtherDimensionRejected(t: Tensor, i: nat, d: int)
    requires !t.isDisposed && i < |t.shape| && d != -1 && d != t.shape[i]
    ensures !ValidateTensorShape(TensorVal(t), t.shape[i := d])
  {
    assert t.shape[i := d][i] == d;
  }
}
