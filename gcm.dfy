/**
 * AES-256-GCM under one fixed key and IV (NIST SP 800-38D), abstracted to what the blob
 * framing depends on: encryption XORs the plaintext with the GCTR keystream, so the
 * ciphertext is as long as the plaintext, and the 16-byte authentication tag is a
 * function of the ciphertext. The block cipher and GHASH themselves are not modelled.
 */
module Gcm {
  import opened Wrappers
  import opened Values

  /** `cipher.getAuthTag()` returns 16 bytes. */
  const TAG_LENGTH: nat := 16

  type Tag = s: seq<byte> | |s| == TAG_LENGTH
    witness [0, 0, 0, 0, 0, 0, 0, 0, 0, 0, 0, 0, 0, 0, 0, 0]

  /** AES-256-GCM instantiated with the process key and IV. */
  datatype Cipher = Cipher(keystream: nat -> byte, authTag: seq<byte> -> Tag)

  /** GCTR: the i-th output byte is the i-th input byte XOR the i-th keystream byte. */
  function Gctr(c: Cipher, data: seq<byte>): (r: seq<byte>)
    ensures |r| == |data|
    ensures forall i :: 0 <= i < |data| ==> r[i] == data[i] ^ c.keystream(i)
  {
    seq(|data|, i requires 0 <= i < |data| => data[i] ^ c.keystream(i))
  }

  lemma GctrInvolution(c: Cipher, p: seq<byte>)
    ensures Gctr(c, Gctr(c, p)) == p
  {
    var q := Gctr(c, Gctr(c, p));
    forall i | 0 <= i < |p| ensures q[i] == p[i] {
      assert q[i] == (p[i] ^ c.keystream(i)) ^ c.keystream(i);
    }
  }

  /**
   * `encryptTensor`'s framing: `Buffer.concat([cipher.update(p), cipher.final()])`
   * followed by `cipher.getAuthTag()`.
   */
  function Seal(c: Cipher, p: seq<byte>): (blob: seq<byte>)
    ensures |blob| == |p| + TAG_LENGTH
    ensures blob[..|p|] == Gctr(c, p) && blob[|p|..] == c.authTag(Gctr(c, p))
  {
    var ct := Gctr(c, p);
    ct + c.authTag(ct)
  }

  /** Tag lengths Node's `setAuthTag` accepts for GCM: 4, 8, or 12 to 16 bytes. */
  predicate ValidTagLength(n: nat)
  {
    n == 4 || n == 8 || 12 <= n <= 16
  }

  /** `encrypted.slice(-16)`: the last 16 bytes, or the whole blob when it is shorter. */
  function TagPart(blob: seq<byte>): (t: seq<byte>)
    ensures |t| == if |blob| >= TAG_LENGTH then TAG_LENGTH else |blob|
    ensures t == blob[|blob| - |t|..]
  {
    if |blob| >= TAG_LENGTH then blob[|blob| - TAG_LENGTH..] else blob
  }

  /** `encrypted.slice(0, -16)`: everything before the last 16 bytes, empty for a short blob. */
  function CiphertextPart(blob: seq<byte>): (ct: seq<byte>)
    ensures |ct| == if |blob| >= TAG_LENGTH then |blob| - TAG_LENGTH else 0
    ensures ct == blob[..|ct|]
  {
    if |blob| >= TAG_LENGTH then blob[..|blob| - TAG_LENGTH] else []
  }

  /** The two slices cover the blob exactly: ciphertext first, then the tag. */
  lemma SplitBlob(blob: seq<byte>)
    ensures CiphertextPart(blob) + TagPart(blob) == blob
  {
    if |blob| < TAG_LENGTH {
      assert CiphertextPart(blob) + TagPart(blob) == [] + blob;
    }
  }

  /**
   * `decryptTensor`'s framing: split off the tag, `setAuthTag`, then `update` and `final`.
   * `final` throws when the tag does not match; OpenSSL compares a short tag against the
   * leading bytes of the computed one.
   */
  function Open(c: Cipher, blob: seq<byte>): (r: Result<seq<byte>, ErrorValue>)
    ensures |blob| >= TAG_LENGTH ==>
              (r.Ok? <==> blob[|blob| - TAG_LENGTH..] == c.authTag(blob[..|blob| - TAG_LENGTH]))
    ensures r.Ok? && |blob| >= TAG_LENGTH ==> r.value == Gctr(c, blob[..|blob| - TAG_LENGTH])
    ensures r.Ok? ==> |r.value| + TAG_LENGTH == |blob| || (r.value == [] && |blob| < TAG_LENGTH)
  {
    var tag := TagPart(blob);
    var ct := CiphertextPart(blob);
    if !ValidTagLength(|tag|) then Err(ErrorValue("TypeError", "Invalid authentication tag length"))
    else if tag != c.authTag(ct)[..|tag|] then Err(NewError("Unsupported state or unable to authenticate data"))
    else Ok(Gctr(c, ct))
  }

  /** Decrypting what was encrypted under the same key and IV gives the plaintext back. */
  lemma OpenSeal(c: Cipher, p: seq<byte>)
    ensures Open(c, Seal(c, p)) == Ok(p)
  {
    var blob := Seal(c, p);
    assert CiphertextPart(blob) == Gctr(c, p);
    GctrInvolution(c, p);
  }

  /** A blob whose ciphertext is intact but whose trailing 16 tag bytes were altered is rejected. */
  lemma OpenRejectsAlteredTag(c: Cipher, p: seq<byte>, forged: seq<byte>)
    requires |forged| == |p| + TAG_LENGTH
    requires forged[..|p|] == Seal(c, p)[..|p|] && forged[|p|..] != Seal(c, p)[|p|..]
    ensures Open(c, forged).Err?
  {
  }
}
