/**
 * The JavaScript values the tensor utilities inspect, and the tfjs tensor handles
 * they pass around.
 */
module Values {

  type byte = bv8

  /** A float32 element of a tensor, held as its IEEE 754 bit pattern. */
  type F32 = bv32

  /**
   * A tfjs tensor handle: an engine-assigned id, its shape, its float32 contents
   * in row-major order, and whether it has been disposed.
   */
  datatype Tensor = Tensor(id: nat, shape: seq<int>, data: seq<F32>, isDisposed: bool)

  /**
   * A JavaScript value as far as `typeof`, `Array.isArray` and `instanceof tf.Tensor`
   * tell values apart. A string is carried as its UTF-8 encoding, which is what
   * `TextEncoder.encode` returns for it.
   */
  datatype JsValue =
    | Null
    | Undefined
    | Num(n: real)
    | Str(utf8: seq<byte>)
    | Arr(elems: seq<JsValue>)
    | Obj(fields: map<string, JsValue>)
    | TensorVal(t: Tensor)
    | Other

  /** What a parameter typed `tf.Tensor | null | undefined` can hold. */
  type TensorArg = v: JsValue | v.Null? || v.Undefined? || v.TensorVal? witness Null

  /** A thrown JavaScript `Error` (or subclass): its `name` and its `message`. */
  datatype ErrorValue = ErrorValue(name: string, message: string)

  /** `new Error(message)`. */
  function NewError(message: string): (e: ErrorValue)
    ensures e.name == "Error" && e.message == message
  {
    ErrorValue("Error", message)
  }

  /** A tensor is well formed when its dimensions are non-negative and its data fills its shape. */
  ghost predicate WellFormed(t: Tensor)
  {
    (forall i :: 0 <= i < |t.shape| ==> t.shape[i] >= 0) && ShapeSize(t.shape) == |t.data|
  }

  /** The number of elements a shape holds: the product of its dimensions. */
  function ShapeSize(shape: seq<int>): int
  {
    if shape == [] then 1 else shape[0] * ShapeSize(shape[1..])
  }
}
