/** An ideal authenticated cipher: XChaCha20-Poly1305 for chunks, AES-256-GCM for keys at rest. */
module Aead {
  import opened Words
  import opened Wrappers

  /** One message someone sealed. */
  datatype Sealing = Sealing(key: Bytes, nonce: Bytes, aad: Bytes, msg: Bytes)

  /** Every message sealed so far. */
  type Log = seq<Sealing>

  const TagSize := 16

  /** The cipher as a function of key, nonce, associated data and message. */
  datatype Cipher = Cipher(seal: (Bytes, Bytes, Bytes, Bytes) -> Bytes) {

    /** A stream cipher with an appended tag: the length is the message's plus the tag's, and under one
        key, nonce and associated data distinct messages seal to distinct bytes. */
    ghost predicate Lawful() {
      && (forall k, n, a, m :: |seal(k, n, a, m)| == |m| + TagSize)
      && (forall k, n, a, m, m' :: seal(k, n, a, m) == seal(k, n, a, m') ==> m == m')
    }

    /** Opening succeeds only on what was sealed, under its own key, nonce and associated data. */
    function Open(log: Log, key: Bytes, nonce: Bytes, aad: Bytes, ct: Bytes): (r: Option<Bytes>)
      ensures r.Some? ==> Sealing(key, nonce, aad, r.value) in log && seal(key, nonce, aad, r.value) == ct
      ensures r.None? ==> forall m :: Sealing(key, nonce, aad, m) in log ==> seal(key, nonce, aad, m) != ct
    {
      if log == [] then None
      else
        var s := log[0];
        if s.key == key && s.nonce == nonce && s.aad == aad && seal(key, nonce, aad, s.msg) == ct then Some(s.msg)
        else Open(log[1..], key, nonce, aad, ct)
    }

    lemma OpenOfSealed(log: Log, key: Bytes, nonce: Bytes, aad: Bytes, msg: Bytes)
      requires Lawful() && Sealing(key, nonce, aad, msg) in log
      ensures Open(log, key, nonce, aad, seal(key, nonce, aad, msg)) == Some(msg)
    {
    }
  }
}
