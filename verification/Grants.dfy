/** Origin signatures over repository-key grants (gitcellar-crypto/src/grant_signing.rs). */
module Grants {
  import opened Words
  import opened Wrappers
  import opened SignedObjects
  import opened Signatures
  import opened CanonicalWriters
  import opened Text

  datatype GrantBundle = GrantBundle(
    v: string, repoUid: string, keyMaterialB64: string, granterFingerprint: string,
    timestampUnix: i64, grantSigB64: string, delegation: Option<GrantDelegation>)

  /** The repository, key version and recipient the recipient itself expects. */
  datatype Aim = Aim(repoUid: string, keyVersion: i32, recipientFingerprint: string)

  datatype GrantVerifyOutcome =
    | Valid
    | GranterFingerprintMismatch(claimed: string, served: string)
    | SignatureInvalid
    | Malformed(error: VerifyError)

  /** `RepoKeyGrant::new` */
  function NewGrant(env: Env, repoUid: string, keyVersion: i32, recipient: string, granter: string,
                    keyMaterial: string, timestamp: i64): RepoKeyGrant
  {
    RepoKeyGrant(repoUid, keyVersion, env.Norm(recipient), env.Norm(granter), keyMaterial, timestamp)
  }

  /** `GrantBundle::to_grant` */
  function ToGrant(env: Env, b: GrantBundle, keyVersion: i32, recipient: string): RepoKeyGrant {
    NewGrant(env, b.repoUid, keyVersion, recipient, b.granterFingerprint, b.keyMaterialB64, b.timestampUnix)
  }

  /** `verify_grant_bundle` */
  function VerifyGrantBundle(env: Env, t: Transport, log: Log, b: GrantBundle, cert: string,
                             servedFingerprint: string, aim: Aim): GrantVerifyOutcome
  {
    var claimed, served := env.Norm(b.granterFingerprint), env.Norm(servedFingerprint);
    if claimed != served then GranterFingerprintMismatch(claimed, served)
    else if aim.repoUid == "" || b.repoUid != aim.repoUid then SignatureInvalid
    else
      var grant := ToGrant(env, b, aim.keyVersion, aim.recipientFingerprint);
      var verified := match b.delegation
        case None => VerifySignedBytes(t, log, cert, env.SignedBytes(Grant(grant, None)), b.grantSigB64)
        case Some(d) => VerifySignedBytes(t, log, cert, env.SignedBytes(Grant(grant, Some(d))), b.grantSigB64);
      match verified
      case Ok(true) => Valid
      case Ok(false) => SignatureInvalid
      case Err(e) => Malformed(e)
  }

  /** The tuple a bundle claims, for an aim: what its granter must have signed. */
  function Claim(b: GrantBundle, aim: Aim): SignedObject {
    Grant(RepoKeyGrant(aim.repoUid, aim.keyVersion, aim.recipientFingerprint, b.granterFingerprint,
                       b.keyMaterialB64, b.timestampUnix), b.delegation)
  }

  /** A bundle is accepted exactly when it names this repository, the served key is the claimed
      granter's, and that key signed this very tuple: uid, version, recipient, granter, key material,
      timestamp, and the delegation or its absence, up to fingerprint rendering. */
  lemma ValidIff(env: Env, t: Transport, log: Log, b: GrantBundle, cert: string, served: string, aim: Aim)
    requires env.unicode.Lawful()
    ensures VerifyGrantBundle(env, t, log, b, cert, served, aim) == Valid <==>
      && env.Norm(b.granterFingerprint) == env.Norm(served)
      && aim.repoUid != "" && b.repoUid == aim.repoUid
      && b.grantSigB64 != "" && t.b64Decode(b.grantSigB64).Some? && t.parseCert(cert).Some?
      && Attested(env, log, t.parseCert(cert).value, Claim(b, aim), t.b64Decode(b.grantSigB64).value)
  {
    hide Env.SignedBytes, Signed, Attested;
    if aim.repoUid != "" && b.repoUid == aim.repoUid {
      var o := Grant(ToGrant(env, b, aim.keyVersion, aim.recipientFingerprint), b.delegation);
      ToGrantSignsClaim(env, b, aim);
      if t.b64Decode(b.grantSigB64).Some? && t.parseCert(cert).Some? {
        SignedIffAttested(env, log, t.parseCert(cert).value, Claim(b, aim), t.b64Decode(b.grantSigB64).value);
      }
    }
  }

  /** Which refusal a bundle gets. */
  lemma RefusalsAre(env: Env, t: Transport, log: Log, b: GrantBundle, cert: string, served: string, aim: Aim)
    ensures var outcome := VerifyGrantBundle(env, t, log, b, cert, served, aim);
      var named := env.Norm(b.granterFingerprint) == env.Norm(served);
      var aimed := aim.repoUid != "" && b.repoUid == aim.repoUid && b.grantSigB64 != "";
      && (!named ==> outcome == GranterFingerprintMismatch(env.Norm(b.granterFingerprint), env.Norm(served)))
      && (named && !aimed ==> outcome == SignatureInvalid)
      && (named && aimed && t.b64Decode(b.grantSigB64).None? ==> outcome == Malformed(BadBase64))
      && (named && aimed && t.b64Decode(b.grantSigB64).Some? && t.parseCert(cert).None? ==>
            outcome == Malformed(BadCert))
      && (named && aimed && t.b64Decode(b.grantSigB64).Some? && t.parseCert(cert).Some? ==>
            outcome == Valid || outcome == SignatureInvalid)
  {
    hide Env.SignedBytes, Signed;
  }

  lemma ToGrantSignsClaim(env: Env, b: GrantBundle, aim: Aim)
    requires env.unicode.Lawful() && b.repoUid == aim.repoUid
    ensures env.SignedBytes(Grant(ToGrant(env, b, aim.keyVersion, aim.recipientFingerprint), b.delegation))
         == env.SignedBytes(Claim(b, aim))
  {
    hide Env.SignedBytes;
    env.unicode.NormalizeIdempotent(aim.recipientFingerprint);
    env.unicode.NormalizeIdempotent(b.granterFingerprint);
    env.SignedBytesInjective(Grant(ToGrant(env, b, aim.keyVersion, aim.recipientFingerprint), b.delegation),
                             Claim(b, aim));
  }

  /** The granter's engine: its key's public half, its fingerprint as rendered, and `sign_data`, which may fail. */
  datatype Granter = Granter(key: PublicKey, fingerprint: string, sign: Bytes -> Option<Bytes>)

  /** What one call is asked to grant. */
  datatype Offer = Offer(aim: Aim, keyMaterial: string, timestamp: i64, delegation: Option<GrantDelegation>) {
    function By(granter: Granter): SignedObject {
      Grant(RepoKeyGrant(aim.repoUid, aim.keyVersion, aim.recipientFingerprint, granter.fingerprint, keyMaterial,
                         timestamp), delegation)
    }
  }

  datatype BuildError = SigningFailed

  /** The bundle names the offer's repository, claims the offer in the granter's name, and carries `sig`. */
  ghost predicate Carries(env: Env, t: Transport, b: GrantBundle, granter: Granter, offer: Offer, sig: Bytes) {
    && b.v == "gc-grant-v2" && b.repoUid == offer.aim.repoUid
    && b.granterFingerprint == env.Norm(granter.fingerprint)
    && env.Meaning(Claim(b, offer.aim)) == env.Meaning(offer.By(granter))
    && b.grantSigB64 == t.b64Encode(sig)
  }

  /** `build_signed_repo_grant_bundle`: what is signed is the offer itself, however fingerprints are rendered. */
  method BuildSignedRepoGrantBundle(env: Env, t: Transport, granter: Granter, offer: Offer)
    returns (r: Result<GrantBundle, BuildError>)
    ensures env.unicode.Lawful() ==>
      match granter.sign(env.SignedBytes(offer.By(granter)))
      case None => r == Err(SigningFailed)
      case Some(sig) => r.Ok? && Carries(env, t, r.value, granter, offer, sig)
  {
    hide Env.SignedBytes, Unicode.NormalizeFingerprint;
    var granterFingerprint := env.Norm(granter.fingerprint);
    var grant := NewGrant(env, offer.aim.repoUid, offer.aim.keyVersion, offer.aim.recipientFingerprint,
                          granterFingerprint, offer.keyMaterial, offer.timestamp);
    var data := GrantCanonicalWithDelegation(env, grant, offer.delegation);
    if env.unicode.Lawful() {
      env.unicode.NormalizeIdempotent(offer.aim.recipientFingerprint);
      env.unicode.NormalizeIdempotent(granter.fingerprint);
      env.SignedBytesInjective(Grant(grant, offer.delegation), offer.By(granter));
    }
    var sig := granter.sign(data);
    if sig.None? {
      return Err(SigningFailed);
    }
    return Ok(GrantBundle(GrantTag, offer.aim.repoUid, offer.keyMaterial, granterFingerprint, offer.timestamp,
                          t.b64Encode(sig.value), offer.delegation));
  }

  /** A built bundle is accepted for its own aim, under any rendering of the granter's fingerprint,
      exactly when its repository uid is not empty. */
  lemma BuiltBundleVerifiesIff(env: Env, t: Transport, log: Log, granter: Granter, offer: Offer, sig: Bytes,
                               b: GrantBundle, cert: string, served: string)
    requires env.unicode.Lawful() && t.Lawful() && sig != []
    requires t.parseCert(cert) == Some(granter.key) && env.Norm(served) == env.Norm(granter.fingerprint)
    ensures var signature := Signature(granter.key, env.SignedBytes(offer.By(granter)), sig);
      Carries(env, t, b, granter, offer, sig) && signature in log ==>
        (VerifyGrantBundle(env, t, log, b, cert, served, offer.aim) == Valid <==> offer.aim.repoUid != "")
  {
    hide VerifyGrantBundle, Env.Meaning, Env.SignedBytes, Claim, Attested, Unicode.NormalizeFingerprint;
    ValidIff(env, t, log, b, cert, served, offer.aim);
    env.unicode.NormalizeIdempotent(granter.fingerprint);
    env.SignedBytesInjective(Claim(b, offer.aim), offer.By(granter));
    SignedIffAttested(env, log, granter.key, Claim(b, offer.aim), sig);
  }

  /** Among the grants this key signed, plain or delegated, only the offer; it may have signed any other
      bytes, of whatever protocol. */
  ghost predicate OnlyGrantSigned(env: Env, log: Log, granter: Granter, offer: Offer) {
    forall i, o: SignedObject ::
      0 <= i < |log| && log[i].key == granter.key && o.Grant? && env.SignedBytes(o) == log[i].data ==>
      env.Meaning(o) == env.Meaning(offer.By(granter))
  }

  /** If the offer is the only grant the granter's key ever signed, no bundle verifies under that key for
      any other repository, version or recipient, nor with any other key material, timestamp or granter,
      nor with the delegation edited, stripped or added. */
  lemma NothingElseVerifies(env: Env, t: Transport, log: Log, granter: Granter, offer: Offer,
                            other: GrantBundle, cert: string, served: string, otherAim: Aim)
    requires env.unicode.Lawful() && t.parseCert(cert) == Some(granter.key)
    ensures var outcome := VerifyGrantBundle(env, t, log, other, cert, served, otherAim);
      outcome == Valid && OnlyGrantSigned(env, log, granter, offer) ==>
      && other.repoUid == otherAim.repoUid == offer.aim.repoUid
      && otherAim.keyVersion == offer.aim.keyVersion
      && env.Norm(otherAim.recipientFingerprint) == env.Norm(offer.aim.recipientFingerprint)
      && env.Norm(other.granterFingerprint) == env.Norm(served) == env.Norm(granter.fingerprint)
      && other.keyMaterialB64 == offer.keyMaterial && other.timestampUnix == offer.timestamp
      && other.delegation == offer.delegation
  {
    hide VerifyGrantBundle, Env.SignedBytes, Attested, Unicode.NormalizeFingerprint;
    ValidIff(env, t, log, other, cert, served, otherAim);
    var outcome := VerifyGrantBundle(env, t, log, other, cert, served, otherAim);
    if outcome == Valid && OnlyGrantSigned(env, log, granter, offer) {
      var sig := t.b64Decode(other.grantSigB64).value;
      SignedIffAttested(env, log, granter.key, Claim(other, otherAim), sig);
      var i :| 0 <= i < |log| && log[i] == Signature(granter.key, env.SignedBytes(Claim(other, otherAim)), sig);
    }
  }

  /** The same for fingerprints as they are rendered, with plain equality: a grant to one recipient is never
      valid for another. */
  lemma NothingElseVerifiesRendered(env: Env, t: Transport, log: Log, granter: Granter, offer: Offer,
                                    other: GrantBundle, cert: string, served: string, otherAim: Aim)
    requires env.unicode.Lawful() && env.unicode.Ascii() && t.parseCert(cert) == Some(granter.key)
    requires IsFingerprint(offer.aim.recipientFingerprint) && IsFingerprint(granter.fingerprint)
    requires IsFingerprint(otherAim.recipientFingerprint) && IsFingerprint(other.granterFingerprint)
    requires IsFingerprint(served)
    ensures var outcome := VerifyGrantBundle(env, t, log, other, cert, served, otherAim);
      outcome == Valid && OnlyGrantSigned(env, log, granter, offer) ==>
      && otherAim == offer.aim && other.repoUid == offer.aim.repoUid
      && other.granterFingerprint == served == granter.fingerprint
      && other.keyMaterialB64 == offer.keyMaterial && other.timestampUnix == offer.timestamp
      && other.delegation == offer.delegation
  {
    hide VerifyGrantBundle, OnlyGrantSigned, Unicode.NormalizeFingerprint;
    NothingElseVerifies(env, t, log, granter, offer, other, cert, served, otherAim);
    env.unicode.FingerprintsApart(otherAim.recipientFingerprint, offer.aim.recipientFingerprint);
    env.unicode.FingerprintsApart(other.granterFingerprint, served);
    env.unicode.FingerprintsApart(served, granter.fingerprint);
  }
}
