/**
 * Node.js `Buffer` objects as views into an `ArrayBuffer`, and where `Buffer.concat`
 * puts the bytes it joins: `Buffer.allocUnsafe` carves allocations smaller than half the
 * pool out of a shared 8 KiB slab, so such a buffer's `.buffer` is the whole slab.
 */
module NodeBuffers {
  import opened Values

  /** `Buffer.poolSize`. */
  const POOL_SIZE: nat := 8192

  /** A `Buffer`: `length` bytes at `byteOffset` in the array buffer `backing` (its `.buffer`). */
  datatype NodeBuffer = NodeBuffer(backing: seq<byte>, byteOffset: nat, length: nat)

  ghost predicate ValidView(b: NodeBuffer)
  {
    b.byteOffset + b.length <= |b.backing|
  }

  /** The bytes the buffer itself stands for. */
  function Contents(b: NodeBuffer): seq<byte>
    requires ValidView(b)
  {
    b.backing[b.byteOffset..b.byteOffset + b.length]
  }

  /** The allocator uses the shared slab for this many bytes. */
  predicate Pooled(size: nat)
  {
    0 < size < POOL_SIZE / 2
  }

  /**
   * `Buffer.concat` of parts whose bytes are `content`. A pooled allocation lands at the
   * pool offset in the slab `slab`, or at the start of a new slab (whose contents are also
   * `slab`) when it does not fit; the other slab bytes are whatever the pool held.
   */
  function Concat(content: seq<byte>, slab: seq<byte>, poolOffset: nat): (b: NodeBuffer)
    requires |slab| == POOL_SIZE
    ensures ValidView(b) && Contents(b) == content
    ensures Pooled(|content|) ==> |b.backing| == POOL_SIZE
    ensures !Pooled(|content|) ==> b.backing == content
  {
    var n := |content|;
    if !Pooled(n) then NodeBuffer(content, 0, n)
    else
      var off := if poolOffset + n > POOL_SIZE then 0 else poolOffset;
      var backing := slab[..off] + content + slab[off + n..];
      assert backing[off..off + n] == content;
      NodeBuffer(backing, off, n)
  }
}
