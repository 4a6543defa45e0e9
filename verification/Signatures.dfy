/** Ideal detached signatures: a signature verifies only if it was made. */
module Signatures {
  import opened Words
  import opened Wrappers
  import opened SignedObjects
  import Canonical

  type PublicKey = Bytes

  /** One signature someone made: `key` signed `data`, whatever those bytes are, giving `sig`. */
  datatype Signature = Signature(key: PublicKey, data: Bytes, sig: Bytes)

  /** Every signature made so far, by anyone: over canonicals and over anything else a key signs. */
  type Log = seq<Signature>

  predicate Signed(log: Log, key: PublicKey, data: Bytes, sig: Bytes) {
    Signature(key, data, sig) in log
  }

  /** The parsers a verifier consults: armored certificates and standard base64. */
  datatype Transport = Transport(
    parseCert: string -> Option<PublicKey>, b64Encode: Bytes -> string, b64Decode: string -> Option<Bytes>)
  {
    ghost predicate Lawful() {
      && (forall x :: b64Decode(b64Encode(x)) == Some(x))
      && (forall x :: x != [] ==> b64Encode(x) != "")
    }
  }

  datatype VerifyError = BadCert | BadBase64

  /** `verify_detached`: an unparsable key is an error, a signature that does not verify is `false`. */
  function VerifyDetached(t: Transport, log: Log, cert: string, data: Bytes, sig: Bytes)
    : Result<bool, VerifyError>
  {
    match t.parseCert(cert)
    case None => Err(BadCert)
    case Some(key) => Ok(Signed(log, key, data, sig))
  }

  /** `verify_signed_bytes`: an absent signature never verifies. */
  function VerifySignedBytes(t: Transport, log: Log, cert: string, data: Bytes, sigB64: string)
    : Result<bool, VerifyError>
  {
    if sigB64 == "" then Ok(false)
    else match t.b64Decode(sigB64)
      case None => Err(BadBase64)
      case Some(sig) => VerifyDetached(t, log, cert, data, sig)
  }

  /** What signed bytes say: they are the canonical of some object, and of none that does not mean `o`. */
  ghost predicate Says(env: Env, data: Bytes, o: SignedObject) {
    && (exists p :: env.SignedBytes(p) == data)
    && (forall p :: env.SignedBytes(p) == data ==> env.Meaning(p) == env.Meaning(o))
  }

  lemma SaysIff(env: Env, data: Bytes, o: SignedObject)
    ensures Says(env, data, o) <==> data == env.SignedBytes(o)
  {
    hide Env.SignedBytes, Env.Meaning;
    forall p
      ensures env.SignedBytes(p) == env.SignedBytes(o) <==> env.Meaning(p) == env.Meaning(o)
    {
      env.SignedBytesInjective(p, o);
    }
  }

  /** What a verified signature proves: among all the bytes that key ever signed, some say `o`. */
  ghost predicate Attested(env: Env, log: Log, key: PublicKey, o: SignedObject, sig: Bytes) {
    exists i :: 0 <= i < |log| && log[i].key == key && log[i].sig == sig && Says(env, log[i].data, o)
  }

  lemma SignedIffAttested(env: Env, log: Log, key: PublicKey, o: SignedObject, sig: Bytes)
    ensures Signed(log, key, env.SignedBytes(o), sig) <==> Attested(env, log, key, o, sig)
  {
    hide Env.SignedBytes, Says;
    forall i | 0 <= i < |log|
      ensures Says(env, log[i].data, o) <==> log[i].data == env.SignedBytes(o)
    {
      SaysIff(env, log[i].data, o);
    }
    if Signed(log, key, env.SignedBytes(o), sig) {
      var i :| 0 <= i < |log| && log[i] == Signature(key, env.SignedBytes(o), sig);
      assert Says(env, log[i].data, o);
    }
  }

  /** A key that signed no bytes opening with a digit has signed no object at all. */
  lemma NotADigitSaysNothing(env: Env, log: Log, key: PublicKey, o: SignedObject, sig: Bytes)
    requires forall i :: 0 <= i < |log| && log[i].key == key && log[i].sig == sig && log[i].data != [] ==>
      !Canonical.IsDigit(log[i].data[0])
    ensures !Attested(env, log, key, o, sig)
  {
    hide Env.SignedBytes;
    env.SignedBytesStartWithDigit(o);
    SignedIffAttested(env, log, key, o, sig);
  }
}
