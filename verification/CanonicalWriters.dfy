/** The functions that fill a buffer with a signed canonical, field by field. Each produces exactly
    the bytes `Env.SignedBytes` assigns to its object. */
module CanonicalWriters {
  import opened Words
  import opened Wrappers
  import opened SignedObjects
  import Canonical
  import Hex
  import Utf8

  lemma GrantLayout(env: Env, g: RepoKeyGrant)
    ensures env.SignedBytes(Grant(g, None)) == Canonical.Encode([
        Utf8.Encode("gc-grant-v2"), Utf8.Encode(g.repoUid), Canonical.Integer(g.keyVersion),
        Utf8.Encode(env.Norm(g.recipientFingerprint)), Utf8.Encode(env.Norm(g.granterFingerprint)),
        Utf8.Encode(g.keyMaterialB64), Canonical.Integer(g.timestampUnix)])
  {
    hide Canonical.Encode, Canonical.Decimal, Utf8.Encode;
    assert [Utf8.Encode(GrantTag)] + env.Body(Grant(g, None)) == [
        Utf8.Encode("gc-grant-v2"), Utf8.Encode(g.repoUid), Canonical.Integer(g.keyVersion),
        Utf8.Encode(env.Norm(g.recipientFingerprint)), Utf8.Encode(env.Norm(g.granterFingerprint)),
        Utf8.Encode(g.keyMaterialB64), Canonical.Integer(g.timestampUnix)];
  }

  lemma DelegatedLayout(env: Env, g: RepoKeyGrant, d: GrantDelegation)
    ensures env.SignedBytes(Grant(g, Some(d))) == Canonical.Encode([
        Utf8.Encode("gc-grant-delegated-v2"), Utf8.Encode(g.repoUid), Canonical.Integer(g.keyVersion),
        Utf8.Encode(env.Norm(g.recipientFingerprint)), Utf8.Encode(env.Norm(g.granterFingerprint)),
        Utf8.Encode(g.keyMaterialB64), Canonical.Integer(g.timestampUnix),
        Utf8.Encode(d.repoUid), Utf8.Encode(d.delegateAccount), Utf8.Encode(d.delegateFingerprint),
        Canonical.Integer(d.keyVersion), Canonical.Integer(d.timestampUnix), Canonical.Integer(d.expiresAtUnix),
        Utf8.Encode(d.delegationSigB64)])
  {
    hide Canonical.Encode, Canonical.Decimal, Utf8.Encode;
    assert [Utf8.Encode(DelegatedGrantTag)] + env.Body(Grant(g, Some(d))) == [
        Utf8.Encode("gc-grant-delegated-v2"), Utf8.Encode(g.repoUid), Canonical.Integer(g.keyVersion),
        Utf8.Encode(env.Norm(g.recipientFingerprint)), Utf8.Encode(env.Norm(g.granterFingerprint)),
        Utf8.Encode(g.keyMaterialB64), Canonical.Integer(g.timestampUnix),
        Utf8.Encode(d.repoUid), Utf8.Encode(d.delegateAccount), Utf8.Encode(d.delegateFingerprint),
        Canonical.Integer(d.keyVersion), Canonical.Integer(d.timestampUnix), Canonical.Integer(d.expiresAtUnix),
        Utf8.Encode(d.delegationSigB64)];
  }

  /** `RepoKeyGrant::canonical` */
  method GrantCanonical(env: Env, g: RepoKeyGrant) returns (bytes: Bytes)
    ensures bytes == env.SignedBytes(Grant(g, None))
    ensures bytes == Canonical.Encode([
        Utf8.Encode("gc-grant-v2"), Utf8.Encode(g.repoUid), Canonical.Integer(g.keyVersion),
        Utf8.Encode(env.Norm(g.recipientFingerprint)), Utf8.Encode(env.Norm(g.granterFingerprint)),
        Utf8.Encode(g.keyMaterialB64), Canonical.Integer(g.timestampUnix)])
  {
    GrantLayout(env, g);
    hide Canonical.Decimal, Utf8.Encode, Env.GrantFields;
    var out := new Canonical.Buffer();
    out.LpPush(Utf8.Encode(GrantTag));
    PushGrantFields(env, g, out);
    assert out.fields == [Utf8.Encode(GrantTag)] + env.GrantFields(g);
    bytes := out.bytes;
  }

  /** The six fields both grant canonicals share. */
  method PushGrantFields(env: Env, g: RepoKeyGrant, out: Canonical.Buffer)
    requires out.Valid()
    modifies out
    ensures out.Valid() && out.fields == old(out.fields) + env.GrantFields(g)
  {
    hide Canonical.Decimal, Utf8.Encode;
    out.LpPush(Utf8.Encode(g.repoUid));
    out.LpPush(Canonical.Integer(g.keyVersion));
    out.LpPush(Utf8.Encode(env.Norm(g.recipientFingerprint)));
    out.LpPush(Utf8.Encode(env.Norm(g.granterFingerprint)));
    out.LpPush(Utf8.Encode(g.keyMaterialB64));
    out.LpPush(Canonical.Integer(g.timestampUnix));
  }

  /** `RepoKeyGrant::canonical_with_delegation` */
  method GrantCanonicalWithDelegation(env: Env, g: RepoKeyGrant, delegation: Option<GrantDelegation>)
    returns (bytes: Bytes)
    ensures bytes == env.SignedBytes(Grant(g, delegation))
    ensures delegation.Some? ==>
      var d := delegation.value;
      bytes == Canonical.Encode([
        Utf8.Encode("gc-grant-delegated-v2"), Utf8.Encode(g.repoUid), Canonical.Integer(g.keyVersion),
        Utf8.Encode(env.Norm(g.recipientFingerprint)), Utf8.Encode(env.Norm(g.granterFingerprint)),
        Utf8.Encode(g.keyMaterialB64), Canonical.Integer(g.timestampUnix),
        Utf8.Encode(d.repoUid), Utf8.Encode(d.delegateAccount), Utf8.Encode(d.delegateFingerprint),
        Canonical.Integer(d.keyVersion), Canonical.Integer(d.timestampUnix), Canonical.Integer(d.expiresAtUnix),
        Utf8.Encode(d.delegationSigB64)])
  {
    if delegation.Some? {
      DelegatedLayout(env, g, delegation.value);
    }
    if delegation.None? {
      bytes := GrantCanonical(env, g);
      return;
    }
    hide Canonical.Decimal, Utf8.Encode, Env.GrantFields, Env.DelegationFields;
    var del := delegation.value;
    var out := new Canonical.Buffer();
    out.LpPush(Utf8.Encode(DelegatedGrantTag));
    PushGrantFields(env, g, out);
    PushDelegationFields(env, del, out);
    DelegatedBody(env, g, del);
    bytes := out.bytes;
  }

  lemma DelegatedBody(env: Env, g: RepoKeyGrant, del: GrantDelegation)
    ensures env.SignedBytes(Grant(g, Some(del)))
         == Canonical.Encode([] + [Utf8.Encode(DelegatedGrantTag)] + env.GrantFields(g) + env.DelegationFields(del))
  {
    hide Canonical.Encode, Utf8.Encode, Env.GrantFields, Env.DelegationFields;
    assert [] + [Utf8.Encode(DelegatedGrantTag)] + env.GrantFields(g) + env.DelegationFields(del)
        == [Utf8.Encode(DelegatedGrantTag)] + env.Body(Grant(g, Some(del)));
  }

  /** The delegation's own fields, verbatim. */
  method PushDelegationFields(env: Env, del: GrantDelegation, out: Canonical.Buffer)
    requires out.Valid()
    modifies out
    ensures out.Valid() && out.fields == old(out.fields) + env.DelegationFields(del)
  {
    hide Canonical.Decimal, Utf8.Encode;
    out.LpPush(Utf8.Encode(del.repoUid));
    out.LpPush(Utf8.Encode(del.delegateAccount));
    out.LpPush(Utf8.Encode(del.delegateFingerprint));
    out.LpPush(Canonical.Integer(del.keyVersion));
    out.LpPush(Canonical.Integer(del.timestampUnix));
    out.LpPush(Canonical.Integer(del.expiresAtUnix));
    out.LpPush(Utf8.Encode(del.delegationSigB64));
  }

  /** `incident_manifest_signed_bytes` */
  method IncidentManifestSignedBytes(env: Env, manifestV: u32, state: ManifestState, seqNo: i64,
                                     signerFingerprint: string, payload: string) returns (bytes: Bytes)
    ensures bytes == env.SignedBytes(Manifest(manifestV, state, seqNo, signerFingerprint, payload))
    ensures bytes == Canonical.Encode([
        Utf8.Encode("gitcellar/incident-manifest/v2"), Canonical.Integer(manifestV),
        Utf8.Encode(if state == Active then "active" else "clear"), Canonical.Integer(seqNo),
        Utf8.Encode(signerFingerprint), Utf8.Encode(payload)])
  {
    hide Canonical.Decimal, Utf8.Encode;
    var out := new Canonical.Buffer();
    out.LpPush(Utf8.Encode(ManifestTag));
    out.LpPush(Canonical.Integer(manifestV));
    out.LpPush(Utf8.Encode(state.AsStr()));
    out.LpPush(Canonical.Integer(seqNo));
    out.LpPush(Utf8.Encode(signerFingerprint));
    out.LpPush(Utf8.Encode(payload));
    var o := Manifest(manifestV, state, seqNo, signerFingerprint, payload);
    assert out.fields == [Utf8.Encode(ManifestTag)] + env.Body(o);
    bytes := out.bytes;
  }

  /** `IdentitySuccession::canonical` */
  method SuccessionCanonical(env: Env, s: IdentitySuccession) returns (bytes: Bytes)
    ensures bytes == env.SignedBytes(Succession(s))
    ensures bytes == Canonical.Encode([
        Utf8.Encode("gc-identity-succession-v1"), Utf8.Encode(env.unicode.NormalizeAccount(s.account)),
        Utf8.Encode(env.Norm(s.oldFingerprint)), Utf8.Encode(env.Norm(s.newFingerprint)),
        Canonical.Integer(s.newKeyVersion), Canonical.Integer(s.issuedAtUnix)])
  {
    hide Canonical.Decimal, Utf8.Encode;
    var out := new Canonical.Buffer();
    out.LpPush(Utf8.Encode(SuccessionTag));
    out.LpPush(Utf8.Encode(env.unicode.NormalizeAccount(s.account)));
    out.LpPush(Utf8.Encode(env.Norm(s.oldFingerprint)));
    out.LpPush(Utf8.Encode(env.Norm(s.newFingerprint)));
    out.LpPush(Canonical.Integer(s.newKeyVersion));
    out.LpPush(Canonical.Integer(s.issuedAtUnix));
    assert out.fields == [Utf8.Encode(SuccessionTag)] + env.Body(Succession(s));
    bytes := out.bytes;
  }

  /** `first_key_evidence_canonical` */
  method FirstKeyEvidenceCanonical(env: Env, account: string, entryHash: string, master: Bytes, certificate: Bytes)
    returns (bytes: Bytes)
    ensures bytes == env.SignedBytes(FirstKeyEvidence(account, entryHash, master, certificate))
    ensures bytes == Canonical.Encode([
        Utf8.Encode("gc-kt-first-key-evidence-v1"), Utf8.Encode(account), Utf8.Encode(entryHash),
        Utf8.Encode(Hex.Encode(master)), Utf8.Encode(Hex.Encode(env.sha256(certificate)))])
  {
    hide Canonical.Decimal, Utf8.Encode;
    var out := new Canonical.Buffer();
    out.LpPush(Utf8.Encode(FirstKeyEvidenceTag));
    out.LpPush(Utf8.Encode(account));
    out.LpPush(Utf8.Encode(entryHash));
    out.LpPush(Utf8.Encode(Hex.Encode(master)));
    out.LpPush(Utf8.Encode(Hex.Encode(env.sha256(certificate))));
    var o := FirstKeyEvidence(account, entryHash, master, certificate);
    assert out.fields == [Utf8.Encode(FirstKeyEvidenceTag)] + env.Body(o);
    bytes := out.bytes;
  }

  /** Exactly 64 lowercase hex characters. */
  predicate IsWellFormedChallenge(challenge: string) {
    |Utf8.Encode(challenge)| == 64 && Hex.IsLowerHex(challenge)
  }

  lemma WellFormedIs(challenge: string)
    ensures IsWellFormedChallenge(challenge) <==>
      |challenge| == 64 && forall i :: 0 <= i < 64 ==> '0' <= challenge[i] <= '9' || 'a' <= challenge[i] <= 'f'
  {
    hide Utf8.Encode;
    if forall i :: 0 <= i < |challenge| ==> '0' <= challenge[i] <= '9' || 'a' <= challenge[i] <= 'f' {
      Utf8.AsciiBytes(challenge);
    }
  }

  datatype ChallengeError = InvalidChallenge

  /** `challenge_signing_payload`: refuses anything but a well-formed nonce, then appends the two
      fields by its own loop. */
  method ChallengeSigningPayload(env: Env, purpose: ChallengePurpose, challenge: string)
    returns (r: Result<Bytes, ChallengeError>)
    ensures r == if IsWellFormedChallenge(challenge) then Ok(env.SignedBytes(Challenge(purpose, challenge)))
                 else Err(InvalidChallenge)
    ensures r.Ok? <==>
      |challenge| == 64 && forall i :: 0 <= i < 64 ==> '0' <= challenge[i] <= '9' || 'a' <= challenge[i] <= 'f'
    ensures r.Ok? ==>
      var tag := if purpose == Login then "gc-auth-login-v1" else "gc-auth-registration-pop-v1";
      r.value == Canonical.Encode([Utf8.Encode(tag), Utf8.Encode(challenge)])
  {
    WellFormedIs(challenge);
    if !IsWellFormedChallenge(challenge) {
      return Err(InvalidChallenge);
    }
    hide Canonical.Decimal, Utf8.Encode;
    var fields := [Utf8.Encode(purpose.Domain()), Utf8.Encode(challenge)];
    var out: Bytes := [];
    ghost var pushed: seq<Bytes> := [];
    assert Canonical.Encode([]) == [];
    hide Canonical.Encode;
    for i := 0 to |fields|
      invariant pushed == fields[..i] && out == Canonical.Encode(pushed)
    {
      var field := fields[i];
      AppendedField(out, pushed, field);
      out := out + Canonical.Decimal(|field|);
      out := out + [Canonical.Colon];
      out := out + field;
      out := out + [Canonical.Newline];
      pushed := pushed + [field];
    }
    assert fields[..|fields|] == fields;
    assert fields == [Utf8.Encode(purpose.Domain())] + env.Body(Challenge(purpose, challenge));
    return Ok(out);
  }

  lemma AppendedField(out: Bytes, pushed: seq<Bytes>, field: Bytes)
    requires out == Canonical.Encode(pushed)
    ensures out + Canonical.Decimal(|field|) + [Canonical.Colon] + field + [Canonical.Newline]
         == Canonical.Encode(pushed + [field])
  {
    Canonical.EncodeAppend(pushed, [field]);
    Canonical.EncodeOne(field);
    hide Canonical.Encode, Canonical.Decimal;
    assert out + Canonical.Decimal(|field|) + [Canonical.Colon] + field + [Canonical.Newline]
        == out + Canonical.Field(field);
  }

  /** Whatever a server sends as a challenge, what the client signs in answer is no grant, manifest,
      succession or evidence, and a sign-in answer is never a registration proof. */
  lemma ChallengeAnswersNothingElse(env: Env, purpose: ChallengePurpose, challenge: string, o: SignedObject)
    ensures env.SignedBytes(Challenge(purpose, challenge)) == env.SignedBytes(o) <==> o == Challenge(purpose, challenge)
  {
    hide Env.SignedBytes;
    env.SignedBytesInjective(Challenge(purpose, challenge), o);
  }
}
