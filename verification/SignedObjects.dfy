/** The byte strings that identity, master and directory keys sign, and what they determine
    (gitcellar-crypto/src/grant_signing.rs, broadcast.rs, identity_succession.rs;
    passkey-core/src/auth/challenge.rs). */
module SignedObjects {
  import opened Words
  import opened Wrappers
  import opened Text
  import Canonical
  import Hex
  import Utf8

  datatype GrantDelegation = GrantDelegation(
    repoUid: string, delegateAccount: string, delegateFingerprint: string,
    keyVersion: u32, timestampUnix: i64, expiresAtUnix: i64, delegationSigB64: string)

  datatype RepoKeyGrant = RepoKeyGrant(
    repoUid: string, keyVersion: i32, recipientFingerprint: string, granterFingerprint: string,
    keyMaterialB64: string, timestampUnix: i64)

  datatype ManifestState = Active | Clear {
    function AsStr(): string {
      match this
      case Active => "active"
      case Clear => "clear"
    }
  }

  datatype IdentitySuccession = IdentitySuccession(
    account: string, oldFingerprint: string, newFingerprint: string, newKeyVersion: u32, issuedAtUnix: i64)

  datatype ChallengePurpose = Login | RegistrationProof {
    function Domain(): string {
      match this
      case Login => "gc-auth-login-v1"
      case RegistrationProof => "gc-auth-registration-pop-v1"
    }
  }

  /** Everything that is signed as a length-prefixed canonical. */
  datatype SignedObject =
    | Grant(grant: RepoKeyGrant, delegation: Option<GrantDelegation>)
    | Manifest(manifestV: u32, state: ManifestState, seqNo: i64, signerFingerprint: string, payload: string)
    | Succession(statement: IdentitySuccession)
    | FirstKeyEvidence(account: string, entryHash: string, masterPublicKey: Bytes, certificate: Bytes)
    | Challenge(purpose: ChallengePurpose, challenge: string)

  const GrantTag := "gc-grant-v2"
  const DelegatedGrantTag := "gc-grant-delegated-v2"
  const ManifestTag := "gitcellar/incident-manifest/v2"
  const SuccessionTag := "gc-identity-succession-v1"
  const FirstKeyEvidenceTag := "gc-kt-first-key-evidence-v1"

  /** The functions the canonicals are built over: Unicode tables and SHA-256. */
  datatype Env = Env(unicode: Unicode, sha256: Bytes -> Bytes) {

    function Norm(s: string): string {
      unicode.NormalizeFingerprint(s)
    }

    function GrantFields(g: RepoKeyGrant): seq<Bytes> {
      [ Utf8.Encode(g.repoUid),
        Canonical.Integer(g.keyVersion),
        Utf8.Encode(Norm(g.recipientFingerprint)),
        Utf8.Encode(Norm(g.granterFingerprint)),
        Utf8.Encode(g.keyMaterialB64),
        Canonical.Integer(g.timestampUnix) ]
    }

    function DelegationFields(d: GrantDelegation): seq<Bytes> {
      [ Utf8.Encode(d.repoUid),
        Utf8.Encode(d.delegateAccount),
        Utf8.Encode(d.delegateFingerprint),
        Canonical.Integer(d.keyVersion),
        Canonical.Integer(d.timestampUnix),
        Canonical.Integer(d.expiresAtUnix),
        Utf8.Encode(d.delegationSigB64) ]
    }

    function Tag(o: SignedObject): string {
      match o
      case Grant(_, None) => GrantTag
      case Grant(_, Some(_)) => DelegatedGrantTag
      case Manifest(_, _, _, _, _) => ManifestTag
      case Succession(_) => SuccessionTag
      case FirstKeyEvidence(_, _, _, _) => FirstKeyEvidenceTag
      case Challenge(purpose, _) => purpose.Domain()
    }

    function Body(o: SignedObject): seq<Bytes> {
      match o
      case Grant(g, None) => GrantFields(g)
      case Grant(g, Some(d)) => GrantFields(g) + DelegationFields(d)
      case Manifest(v, state, seqNo, signer, payload) =>
        [ Canonical.Integer(v), Utf8.Encode(state.AsStr()), Canonical.Integer(seqNo), Utf8.Encode(signer),
          Utf8.Encode(payload) ]
      case Succession(s) =>
        [ Utf8.Encode(unicode.NormalizeAccount(s.account)), Utf8.Encode(Norm(s.oldFingerprint)),
          Utf8.Encode(Norm(s.newFingerprint)), Canonical.Integer(s.newKeyVersion),
          Canonical.Integer(s.issuedAtUnix) ]
      case FirstKeyEvidence(account, entryHash, master, certificate) =>
        [ Utf8.Encode(account), Utf8.Encode(entryHash), Utf8.Encode(Hex.Encode(master)),
          Utf8.Encode(Hex.Encode(sha256(certificate))) ]
      case Challenge(_, challenge) => [ Utf8.Encode(challenge) ]
    }

    /** The bytes a signature over `o` covers. */
    function SignedBytes(o: SignedObject): Bytes {
      Canonical.Encode([Utf8.Encode(Tag(o))] + Body(o))
    }

    /** What the signed bytes say: `o` with fingerprints and accounts normalized and the certificate
        replaced by its hash. */
    function Meaning(o: SignedObject): SignedObject {
      match o
      case Grant(g, d) =>
        Grant(g.(recipientFingerprint := Norm(g.recipientFingerprint),
                 granterFingerprint := Norm(g.granterFingerprint)), d)
      case Succession(s) =>
        Succession(s.(account := unicode.NormalizeAccount(s.account),
                      oldFingerprint := Norm(s.oldFingerprint), newFingerprint := Norm(s.newFingerprint)))
      case FirstKeyEvidence(account, entryHash, master, certificate) =>
        FirstKeyEvidence(account, entryHash, master, sha256(certificate))
      case _ => o
    }

    // ----- The signed bytes determine the object

    lemma GrantFieldsInjective(g: RepoKeyGrant, h: RepoKeyGrant)
      requires GrantFields(g) == GrantFields(h)
      ensures Meaning(Grant(g, None)) == Meaning(Grant(h, None))
    {
      var x, y := GrantFields(g), GrantFields(h);
      assert x[0] == y[0] && x[1] == y[1] && x[2] == y[2] && x[3] == y[3] && x[4] == y[4] && x[5] == y[5];
      Utf8.EncodeInjective(g.repoUid, h.repoUid);
      Canonical.IntegerInjective(g.keyVersion, h.keyVersion);
      Utf8.EncodeInjective(Norm(g.recipientFingerprint), Norm(h.recipientFingerprint));
      Utf8.EncodeInjective(Norm(g.granterFingerprint), Norm(h.granterFingerprint));
      Utf8.EncodeInjective(g.keyMaterialB64, h.keyMaterialB64);
      Canonical.IntegerInjective(g.timestampUnix, h.timestampUnix);
    }

    lemma DelegationFieldsInjective(d: GrantDelegation, e: GrantDelegation)
      requires DelegationFields(d) == DelegationFields(e)
      ensures d == e
    {
      var x, y := DelegationFields(d), DelegationFields(e);
      assert x[0] == y[0] && x[1] == y[1] && x[2] == y[2] && x[3] == y[3] && x[4] == y[4] && x[5] == y[5]
          && x[6] == y[6];
      Utf8.EncodeInjective(d.repoUid, e.repoUid);
      Utf8.EncodeInjective(d.delegateAccount, e.delegateAccount);
      Utf8.EncodeInjective(d.delegateFingerprint, e.delegateFingerprint);
      Canonical.IntegerInjective(d.keyVersion, e.keyVersion);
      Canonical.IntegerInjective(d.timestampUnix, e.timestampUnix);
      Canonical.IntegerInjective(d.expiresAtUnix, e.expiresAtUnix);
      Utf8.EncodeInjective(d.delegationSigB64, e.delegationSigB64);
    }

    lemma StateInjective(s: ManifestState, t: ManifestState)
      requires s.AsStr() == t.AsStr()
      ensures s == t
    {
      assert "active"[0] != "clear"[0];
    }

    lemma ManifestInjective(a: SignedObject, b: SignedObject)
      requires a.Manifest? && b.Manifest? && Body(a) == Body(b)
      ensures a == b
    {
      var x, y := Body(a), Body(b);
      assert x[0] == y[0] && x[1] == y[1] && x[2] == y[2] && x[3] == y[3] && x[4] == y[4];
      Canonical.IntegerInjective(a.manifestV, b.manifestV);
      Utf8.EncodeInjective(a.state.AsStr(), b.state.AsStr());
      StateInjective(a.state, b.state);
      Canonical.IntegerInjective(a.seqNo, b.seqNo);
      Utf8.EncodeInjective(a.signerFingerprint, b.signerFingerprint);
      Utf8.EncodeInjective(a.payload, b.payload);
    }

    lemma SuccessionInjective(s: IdentitySuccession, t: IdentitySuccession)
      requires Body(Succession(s)) == Body(Succession(t))
      ensures Meaning(Succession(s)) == Meaning(Succession(t))
    {
      var x, y := Body(Succession(s)), Body(Succession(t));
      assert x[0] == y[0] && x[1] == y[1] && x[2] == y[2] && x[3] == y[3] && x[4] == y[4];
      Utf8.EncodeInjective(unicode.NormalizeAccount(s.account), unicode.NormalizeAccount(t.account));
      Utf8.EncodeInjective(Norm(s.oldFingerprint), Norm(t.oldFingerprint));
      Utf8.EncodeInjective(Norm(s.newFingerprint), Norm(t.newFingerprint));
      Canonical.IntegerInjective(s.newKeyVersion, t.newKeyVersion);
      Canonical.IntegerInjective(s.issuedAtUnix, t.issuedAtUnix);
    }

    lemma FirstKeyEvidenceInjective(a: SignedObject, b: SignedObject)
      requires a.FirstKeyEvidence? && b.FirstKeyEvidence? && Body(a) == Body(b)
      ensures Meaning(a) == Meaning(b)
    {
      var x, y := Body(a), Body(b);
      assert x[0] == y[0] && x[1] == y[1] && x[2] == y[2] && x[3] == y[3];
      Utf8.EncodeInjective(a.account, b.account);
      Utf8.EncodeInjective(a.entryHash, b.entryHash);
      Utf8.EncodeInjective(Hex.Encode(a.masterPublicKey), Hex.Encode(b.masterPublicKey));
      Hex.EncodeInjective(a.masterPublicKey, b.masterPublicKey);
      Utf8.EncodeInjective(Hex.Encode(sha256(a.certificate)), Hex.Encode(sha256(b.certificate)));
      Hex.EncodeInjective(sha256(a.certificate), sha256(b.certificate));
    }

    /** The domain tag tells the kinds apart, delegated from plain grants and sign-in from
        registration included. */
    lemma TagFixesKind(a: SignedObject, b: SignedObject)
      requires Tag(a) == Tag(b)
      ensures a.Grant? == b.Grant? && a.Manifest? == b.Manifest? && a.Succession? == b.Succession?
      ensures a.FirstKeyEvidence? == b.FirstKeyEvidence? && a.Challenge? == b.Challenge?
      ensures a.Grant? ==> a.delegation.Some? == b.delegation.Some?
      ensures a.Challenge? ==> a.purpose == b.purpose
    {
      assert |GrantTag| == 11 && |DelegatedGrantTag| == 21 && |ManifestTag| == 30;
      assert |SuccessionTag| == 25 && |FirstKeyEvidenceTag| == 27;
      assert |Login.Domain()| == 16 && |RegistrationProof.Domain()| == 27;
      assert FirstKeyEvidenceTag[3] != RegistrationProof.Domain()[3];
    }

    lemma BodyInjective(a: SignedObject, b: SignedObject)
      requires Tag(a) == Tag(b) && Body(a) == Body(b)
      ensures Meaning(a) == Meaning(b)
    {
      hide Body, GrantFields, DelegationFields;
      TagFixesKind(a, b);
      match a
      case Grant(g, d) => GrantBodyInjective(g, d, b.grant, b.delegation);
      case Manifest(_, _, _, _, _) => ManifestInjective(a, b);
      case Succession(s) => SuccessionInjective(s, b.statement);
      case FirstKeyEvidence(_, _, _, _) => FirstKeyEvidenceInjective(a, b);
      case Challenge(_, c) => ChallengeInjective(a, b);
    }

    lemma ChallengeInjective(a: SignedObject, b: SignedObject)
      requires a.Challenge? && b.Challenge? && Body(a) == Body(b)
      ensures a.challenge == b.challenge
    {
      assert Body(a)[0] == Body(b)[0];
      Utf8.EncodeInjective(a.challenge, b.challenge);
    }

    lemma GrantBodyInjective(g: RepoKeyGrant, d: Option<GrantDelegation>, h: RepoKeyGrant, e: Option<GrantDelegation>)
      requires d.Some? == e.Some? && Body(Grant(g, d)) == Body(Grant(h, e))
      ensures Meaning(Grant(g, d)) == Meaning(Grant(h, e))
    {
      var x, y := Body(Grant(g, d)), Body(Grant(h, e));
      assert |GrantFields(g)| == 6 && |GrantFields(h)| == 6;
      hide GrantFields, DelegationFields;
      assert x[..6] == GrantFields(g) && y[..6] == GrantFields(h);
      GrantFieldsInjective(g, h);
      if d.Some? {
        assert x[6..] == DelegationFields(d.value) && y[6..] == DelegationFields(e.value);
        DelegationFieldsInjective(d.value, e.value);
      }
    }

    /** Two signed objects, of whatever kinds, have the same signed bytes exactly when they mean the
        same: every typed field is bound, and no two kinds or challenge purposes ever collide. */
    lemma SignedBytesInjective(a: SignedObject, b: SignedObject)
      ensures SignedBytes(a) == SignedBytes(b) <==> Meaning(a) == Meaning(b)
    {
      hide Body, Tag;
      var x, y := [Utf8.Encode(Tag(a))] + Body(a), [Utf8.Encode(Tag(b))] + Body(b);
      Canonical.EncodeInjective(x, y);
      if SignedBytes(a) == SignedBytes(b) {
        assert x[0] == y[0] && x[1..] == Body(a) && y[1..] == Body(b);
        Utf8.EncodeInjective(Tag(a), Tag(b));
        BodyInjective(a, b);
      } else if Meaning(a) == Meaning(b) {
        MeaningFixesBytes(a, b);
      }
    }

    lemma MeaningFixesBytes(a: SignedObject, b: SignedObject)
      requires Meaning(a) == Meaning(b)
      ensures Tag(a) == Tag(b) && Body(a) == Body(b)
    {
    }

    /** Fingerprints and accounts as the rest of the system renders them. */
    ghost predicate Rendered(o: SignedObject) {
      match o
      case Grant(g, _) => IsFingerprint(g.recipientFingerprint) && IsFingerprint(g.granterFingerprint)
      case Succession(s) =>
        && IsFingerprint(s.oldFingerprint) && IsFingerprint(s.newFingerprint)
        && unicode.NormalizeAccount(s.account) == s.account
      case FirstKeyEvidence(_, _, _, _) => false
      case _ => true
    }

    /** On objects so rendered nothing is identified: equal signed bytes are equal objects. */
    lemma RenderedBytesInjective(a: SignedObject, b: SignedObject)
      requires unicode.Ascii() && Rendered(a) && Rendered(b)
      ensures SignedBytes(a) == SignedBytes(b) <==> a == b
    {
      RenderedMeansItself(a);
      RenderedMeansItself(b);
      hide Meaning, SignedBytes;
      SignedBytesInjective(a, b);
    }

    lemma RenderedMeansItself(o: SignedObject)
      requires unicode.Ascii() && Rendered(o)
      ensures Meaning(o) == o
    {
      hide Unicode.NormalizeFingerprint, Unicode.NormalizeAccount;
      match o
      case Grant(g, _) =>
        unicode.FingerprintsApart(g.recipientFingerprint, g.granterFingerprint);
        unicode.FingerprintsApart(g.granterFingerprint, g.recipientFingerprint);
      case Succession(s) =>
        unicode.FingerprintsApart(s.oldFingerprint, s.newFingerprint);
        unicode.FingerprintsApart(s.newFingerprint, s.oldFingerprint);
      case _ =>
    }

    /** Every signed canonical opens with a digit, so none is a bare JSON payload. */
    lemma SignedBytesStartWithDigit(o: SignedObject)
      ensures SignedBytes(o) != [] && Canonical.IsDigit(SignedBytes(o)[0])
    {
      hide Body;
      var fields := [Utf8.Encode(Tag(o))] + Body(o);
      Canonical.FieldNonEmpty(fields[0]);
      assert SignedBytes(o)[0] == Canonical.Field(fields[0])[0];
    }

    /** A tuple built by struct literal signs the same bytes as one built by `new`. */
    lemma NewSignsAsLiteral(g: RepoKeyGrant, d: Option<GrantDelegation>, s: IdentitySuccession)
      requires unicode.Lawful()
      ensures SignedBytes(Meaning(Grant(g, d))) == SignedBytes(Grant(g, d))
      ensures SignedBytes(Meaning(Succession(s))) == SignedBytes(Succession(s))
    {
      hide SignedBytes, Unicode.NormalizeFingerprint, Unicode.NormalizeAccount;
      unicode.NormalizeIdempotent(g.recipientFingerprint);
      unicode.NormalizeIdempotent(g.granterFingerprint);
      unicode.NormalizeIdempotent(s.oldFingerprint);
      unicode.NormalizeIdempotent(s.newFingerprint);
      unicode.NormalizeAccountIdempotent(s.account);
      SignedBytesInjective(Meaning(Grant(g, d)), Grant(g, d));
      SignedBytesInjective(Meaning(Succession(s)), Succession(s));
    }
  }
}
