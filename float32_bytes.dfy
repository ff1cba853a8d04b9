/**
 * The byte image of float32 data, as `new Float32Array(data).buffer` produces it and
 * `new Float32Array(arrayBuffer)` reads it back on a little-endian host.
 */
module Float32Bytes {
  import opened Wrappers
  import opened Values

  /** The four little-endian bytes of one float32 element. */
  function WordBytes(w: F32): (b: seq<byte>)
    ensures |b| == 4
  {
    [(w & 0xFF) as byte, ((w >> 8) & 0xFF) as byte, ((w >> 16) & 0xFF) as byte, ((w >> 24) & 0xFF) as byte]
  }

  /** The float32 element whose little-endian bytes are `b`. */
  function WordOf(b: seq<byte>): F32
    requires |b| == 4
  {
    (b[0] as F32) | ((b[1] as F32) << 8) | ((b[2] as F32) << 16) | ((b[3] as F32) << 24)
  }

  lemma WordRoundTrip(w: F32)
    ensures WordOf(WordBytes(w)) == w
  {
  }

  /** The buffer of a `Float32Array` holding `ws`: four bytes per element, in order. */
  function Serialize(ws: seq<F32>): (r: seq<byte>)
    ensures |r| == 4 * |ws|
  {
    if ws == [] then [] else WordBytes(ws[0]) + Serialize(ws[1..])
  }

  /** The elements of a `Float32Array` laid over an array buffer whose length is a multiple of 4. */
  function Words(b: seq<byte>): (ws: seq<F32>)
    requires |b| % 4 == 0
    ensures 4 * |ws| == |b|
  {
    if b == [] then [] else [WordOf(b[..4])] + Words(b[4..])
  }

  /**
   * `new Float32Array(arrayBuffer)`: the elements, or the RangeError it throws when the
   * buffer's length is not a multiple of the element size.
   */
  function View(b: seq<byte>): (r: Result<seq<F32>, ErrorValue>)
    ensures r.Ok? <==> |b| % 4 == 0
    ensures r.Ok? ==> 4 * |r.value| == |b|
  {
    if |b| % 4 != 0 then Err(ErrorValue("RangeError", "byte length of Float32Array should be a multiple of 4"))
    else Ok(Words(b))
  }

  /** Reading back the buffer of a `Float32Array` gives the same elements. */
  lemma {:induction false} WordsSerialize(ws: seq<F32>)
    ensures Words(Serialize(ws)) == ws
  {
    if ws != [] {
      var b := Serialize(ws);
      assert b[..4] == WordBytes(ws[0]);
      assert b[4..] == Serialize(ws[1..]);
      WordRoundTrip(ws[0]);
      WordsSerialize(ws[1..]);
    }
  }

  lemma ViewSerialize(ws: seq<F32>)
    ensures View(Serialize(ws)) == Ok(ws)
  {
    WordsSerialize(ws);
  }
}
