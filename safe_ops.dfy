/**
 * The guarded tensor operations: each checks that every tensor argument is live and
 * then delegates to the tfjs primitive, or throws and produces no result.
 * The primitives are parameters; their numeric meaning is not part of this model.
 */
module SafeTensorOps {
  import opened Wrappers
  import opened Values
  import opened Validation

  type Outcome = Result<Tensor, ErrorValue>

  /** A binary tfjs primitive such as `tf.add`; it may itself throw. */
  type Binary = (Tensor, Tensor) -> Outcome

  /** The liveness guard shared by the binary operations, throwing `message` when it fails. */
  function Guarded(message: string, a: TensorArg, b: TensorArg, prim: Binary): Outcome
  {
    if !ValidateTensor(a) || !ValidateTensor(b) then Err(NewError(message)) else prim(a.t, b.t)
  }

  /** `SafeTensorOps.reshape`. */
  function Reshape(t: TensorArg, shape: seq<int>, reshape: (Tensor, seq<int>) -> Outcome): (r: Outcome)
    ensures t.TensorVal? && !t.t.isDisposed ==> r == reshape(t.t, shape)
    ensures !(t.TensorVal? && !t.t.isDisposed) ==> r == Err(NewError("Invalid tensor for reshape operation"))
  {
    if !ValidateTensor(t) then Err(NewError("Invalid tensor for reshape operation")) else reshape(t.t, shape)
  }

  /** Both arguments are live tensor handles. */
  ghost predicate BothLive(a: TensorArg, b: TensorArg)
  {
    a.TensorVal? && !a.t.isDisposed && b.TensorVal? && !b.t.isDisposed
  }

  /** `SafeTensorOps.matMul`. */
  function MatMul(a: TensorArg, b: TensorArg, matMul: Binary): (r: Outcome)
    ensures BothLive(a, b) ==> r == matMul(a.t, b.t)
    ensures !BothLive(a, b) ==> r == Err(NewError("Invalid tensors for matMul operation"))
  {
    Guarded("Invalid tensors for matMul operation", a, b, matMul)
  }

  /** `SafeTensorOps.add`. */
  function Add(a: TensorArg, b: TensorArg, add: Binary): (r: Outcome)
    ensures BothLive(a, b) ==> r == add(a.t, b.t)
    ensures !BothLive(a, b) ==> r == Err(NewError("Invalid tensors for add operation"))
  {
    Guarded("Invalid tensors for add operation", a, b, add)
  }

  /** `SafeTensorOps.sub`. */
  function Sub(a: TensorArg, b: TensorArg, sub: Binary): (r: Outcome)
    ensures BothLive(a, b) ==> r == sub(a.t, b.t)
    ensures !BothLive(a, b) ==> r == Err(NewError("Invalid tensors for sub operation"))
  {
    Guarded("Invalid tensors for sub operation", a, b, sub)
  }

  /** `SafeTensorOps.mul`. */
  function Mul(a: TensorArg, b: TensorArg, mul: Binary): (r: Outcome)
    ensures BothLive(a, b) ==> r == mul(a.t, b.t)
    ensures !BothLive(a, b) ==> r == Err(NewError("Invalid tensors for mul operation"))
  {
    Guarded("Invalid tensors for mul operation", a, b, mul)
  }

  /** `SafeTensorOps.div`. */
  function Div(a: TensorArg, b: TensorArg, div: Binary): (r: Outcome)
    ensures BothLive(a, b) ==> r == div(a.t, b.t)
    ensures !BothLive(a, b) ==> r == Err(NewError("Invalid tensors for div operation"))
  {
    Guarded("Invalid tensors for div operation", a, b, div)
  }
}
