/** Authenticated encryption, of which only the sizes and the inverse matter here. */
module Ciphers {
  import opened Bytes
  import opened Wrappers

  const OVERHEAD := 12 + 16

  /** `seal` takes a nonce and a plaintext; `unseal` gives None for what is not authentic. */
  datatype Cipher = Cipher(seal: (seq<byte>, seq<byte>) -> seq<byte>, unseal: seq<byte> -> Option<seq<byte>>)

  ghost predicate Sound(c: Cipher) {
    && (forall nonce: seq<byte>, p: seq<byte> {:trigger c.seal(nonce, p)} ::
          |c.seal(nonce, p)| == |p| + OVERHEAD && c.unseal(c.seal(nonce, p)) == Some(p))
    && (forall s: seq<byte> {:trigger c.unseal(s)} ::
          c.unseal(s).Some? ==> |s| == |c.unseal(s).value| + OVERHEAD)
  }

  /** There are such functions: here one that keeps no secrets. */
  lemma SoundCiphersExist() returns (c: Cipher)
    ensures Sound(c)
  {
    var tag: seq<byte> := seq(OVERHEAD, _ => 0);
    c := Cipher((nonce: seq<byte>, p: seq<byte>) => p + tag,
                (s: seq<byte>) => if |s| >= OVERHEAD then Some(s[..|s| - OVERHEAD]) else None);
    forall nonce: seq<byte>, p: seq<byte>
      ensures |c.seal(nonce, p)| == |p| + OVERHEAD && c.unseal(c.seal(nonce, p)) == Some(p)
    {
      assert (p + tag)[..|p|] == p;
    }
  }
}
