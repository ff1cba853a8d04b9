/**
 * `MemoryManager.encryptTensor` and `decryptTensor`: a tensor's float32 bytes sealed with
 * the process cipher, and a blob opened and read back into a tensor of a caller-supplied
 * shape. The shape is not part of the blob.
 */
module TensorCrypto {
  import opened Wrappers
  import opened Values
  import opened Float32Bytes
  import opened Gcm
  import opened NodeBuffers

  /** `encryptTensor`: `dataSync` throws on a disposed tensor; otherwise the sealed float32 bytes. */
  function EncryptTensor(c: Cipher, t: Tensor): (r: Result<seq<byte>, ErrorValue>)
    ensures r.Ok? <==> !t.isDisposed
    ensures r.Ok? ==> |r.value| == 4 * |t.data| + TAG_LENGTH
    ensures r.Ok? ==> Open(c, r.value) == Ok(Serialize(t.data))
  {
    if t.isDisposed then Err(NewError("Tensor is disposed."))
    else
      OpenSeal(c, Serialize(t.data));
      Ok(Seal(c, Serialize(t.data)))
  }

  /**
   * `tf.tensor(values, shape)`: a new live tensor with engine id `id`, or the error tfjs
   * throws when a dimension is negative or the shape does not hold exactly that many values.
   */
  function MakeTensor(values: seq<F32>, shape: seq<int>, id: nat): (r: Result<Tensor, ErrorValue>)
    ensures r.Ok? <==> (forall i :: 0 <= i < |shape| ==> shape[i] >= 0) && ShapeSize(shape) == |values|
    ensures r.Ok? ==> r.value == Tensor(id, shape, values, false) && WellFormed(r.value)
  {
    if exists i :: 0 <= i < |shape| && shape[i] < 0 then
      Err(NewError("Tensor must have a shape comprised of non-negative integers"))
    else if ShapeSize(shape) != |values| then
      Err(NewError("Based on the provided shape, the tensor should have a different number of values"))
    else Ok(Tensor(id, shape, values, false))
  }

  /** Open the blob, read the plaintext as float32 elements, and build the tensor. */
  function FromPlaintext(plain: Result<seq<byte>, ErrorValue>, shape: seq<int>, id: nat): Result<Tensor, ErrorValue>
  {
    if plain.Err? then Err(plain.error)
    else
      var values := View(plain.value);
      if values.Err? then Err(values.error) else MakeTensor(values.value, shape, id)
  }

  /**
   * `decryptTensor`, reading only the decrypted bytes themselves (the corrected form: the
   * element view covers the buffer's own offset and length, not its whole array buffer).
   */
  function DecryptTensor(c: Cipher, blob: seq<byte>, shape: seq<int>, id: nat): (r: Result<Tensor, ErrorValue>)
    ensures r.Ok? ==> !r.value.isDisposed && r.value.shape == shape && r.value.id == id && WellFormed(r.value)
    ensures r.Ok? ==> Open(c, blob).Ok? && Serialize(r.value.data) == Open(c, blob).value
  {
    var r := FromPlaintext(Open(c, blob), shape, id);
    if r.Ok? then
      ViewWordsSerialize(Open(c, blob).value);
      r
    else r
  }

  /** Reading a byte sequence as float32 elements and writing them back gives the same bytes. */
  lemma {:induction false} ViewWordsSerialize(b: seq<byte>)
    requires |b| % 4 == 0
    ensures Serialize(Words(b)) == b
    decreases |b|
  {
    if b != [] {
      var w := WordOf(b[..4]);
      assert WordBytes(w) == b[..4] by {
        assert WordBytes(w)[0] == b[0] && WordBytes(w)[1] == b[1];
        assert WordBytes(w)[2] == b[2] && WordBytes(w)[3] == b[3];
      }
      ViewWordsSerialize(b[4..]);
      assert b == b[..4] + b[4..];
    }
  }

  /**
   * `decryptTensor` as written: `new Float32Array(decrypted.buffer)` reads the whole array
   * buffer behind the `Buffer.concat` result. `slab` and `poolOffset` stand for the state of
   * Node's buffer pool at the call.
   */
  function DecryptTensorAsWritten(c: Cipher, blob: seq<byte>, shape: seq<int>, id: nat,
                                  slab: seq<byte>, poolOffset: nat): (r: Result<Tensor, ErrorValue>)
    requires |slab| == POOL_SIZE
    ensures Open(c, blob).Err? ==> r == Err(Open(c, blob).error)
    ensures r.Ok? ==>
              Open(c, blob).Ok? &&
              var backing := Concat(Open(c, blob).value, slab, poolOffset).backing;
              |backing| % 4 == 0 && r.value == Tensor(id, shape, Words(backing), false) && WellFormed(r.value)
  {
    var plain := Open(c, blob);
    if plain.Err? then Err(plain.error)
    else FromPlaintext(Ok(Concat(plain.value, slab, poolOffset).backing), shape, id)
  }

  /** The corrected reading: the view's own bytes, wherever the allocator placed them. */
  function DecryptTensorViewed(c: Cipher, blob: seq<byte>, shape: seq<int>, id: nat,
                               slab: seq<byte>, poolOffset: nat): (r: Result<Tensor, ErrorValue>)
    requires |slab| == POOL_SIZE
    ensures r == DecryptTensor(c, blob, shape, id)
  {
    var plain := Open(c, blob);
    if plain.Err? then Err(plain.error)
    else FromPlaintext(Ok(Contents(Concat(plain.value, slab, poolOffset))), shape, id)
  }

  /** Well formed, live tensors: the ones `encryptTensor` is called on. */
  ghost predicate Encryptable(t: Tensor)
  {
    !t.isDisposed && WellFormed(t)
  }

  /** Round trip: decrypting with the original shape rebuilds the tensor under a new id. */
  lemma DecryptEncrypt(c: Cipher, t: Tensor, id: nat)
    requires Encryptable(t)
    ensures DecryptTensor(c, EncryptTensor(c, t).value, t.shape, id) == Ok(Tensor(id, t.shape, t.data, false))
  {
    ViewSerialize(t.data);
  }

  /**
   * The blob does not fix the shape: any shape of the same size, such as [2, 2] for a
   * tensor of shape [4], reads back the same flat values.
   */
  lemma DecryptWithOtherShape(c: Cipher, t: Tensor, shape: seq<int>, id: nat)
    requires Encryptable(t)
    requires (forall i :: 0 <= i < |shape| ==> shape[i] >= 0) && ShapeSize(shape) == |t.data|
    ensures DecryptTensor(c, EncryptTensor(c, t).value, shape, id) == Ok(Tensor(id, shape, t.data, false))
  {
    ViewSerialize(t.data);
  }

  /** A blob with altered tag bytes is rejected, and nothing is produced. */
  lemma DecryptRejectsAlteredTag(c: Cipher, t: Tensor, forged: seq<byte>, shape: seq<int>, id: nat)
    requires !t.isDisposed
    requires |forged| == |EncryptTensor(c, t).value|
    requires forged[..4 * |t.data|] == EncryptTensor(c, t).value[..4 * |t.data|]
    requires forged[4 * |t.data|..] != EncryptTensor(c, t).value[4 * |t.data|..]
    ensures DecryptTensor(c, forged, shape, id).Err?
  {
    OpenRejectsAlteredTag(c, Serialize(t.data), forged);
  }

  /**
   * As written, decryption fails for every tensor of 1 to 1023 elements: its plaintext is
   * pooled, the element view covers the 8192-byte slab (2048 elements), and `tf.tensor`
   * rejects 2048 values for the original shape.
   */
  lemma AsWrittenRejectsSmallTensors(c: Cipher, t: Tensor, id: nat, slab: seq<byte>, poolOffset: nat)
    requires Encryptable(t) && 0 < |t.data| < 1024
    requires |slab| == POOL_SIZE
    ensures DecryptTensorAsWritten(c, EncryptTensor(c, t).value, t.shape, id, slab, poolOffset).Err?
  {
    var plain := Serialize(t.data);
    assert Open(c, EncryptTensor(c, t).value) == Ok(plain);
    var backing := Concat(plain, slab, poolOffset).backing;
    assert |backing| == POOL_SIZE;
    assert View(backing).Ok? && |View(backing).value| == 2048;
  }

  /** As written, decryption is right for tensors of 1024 elements or more, whose buffers are not pooled. */
  lemma AsWrittenCorrectForLargeTensors(c: Cipher, t: Tensor, id: nat, slab: seq<byte>, poolOffset: nat)
    requires Encryptable(t) && |t.data| >= 1024
    requires |slab| == POOL_SIZE
    ensures DecryptTensorAsWritten(c, EncryptTensor(c, t).value, t.shape, id, slab, poolOffset)
              == Ok(Tensor(id, t.shape, t.data, false))
  {
    assert Open(c, EncryptTensor(c, t).value) == Ok(Serialize(t.data));
    ViewSerialize(t.data);
  }
}
