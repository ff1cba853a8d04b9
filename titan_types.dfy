/** The behaviour in the type definitions: the tensor wrappers and the custom error classes. */
module TitanTypes {
  import opened Values

  /** `wrapTensor`: the wrapped tensor is the tensor itself. */
  function WrapTensor(t: Tensor): (r: Tensor)
    ensures r == t
  {
    t
  }

  /** `unwrapTensor`: the underlying tensor is the wrapped one itself. */
  function UnwrapTensor(t: Tensor): (r: Tensor)
    ensures r == t
  {
    t
  }

  lemma UnwrapWrap(t: Tensor)
    ensures UnwrapTensor(WrapTensor(t)) == t
  {
  }

  /** `new TensorError(message)`. */
  function NewTensorError(message: string): (e: ErrorValue)
    ensures e.name == "TensorError" && e.message == message
  {
    ErrorValue("TensorError", message)
  }

  /** `new MemoryError(message)`. */
  function NewMemoryError(message: string): (e: ErrorValue)
    ensures e.name == "MemoryError" && e.message == message
  {
    ErrorValue("MemoryError", message)
  }
}
