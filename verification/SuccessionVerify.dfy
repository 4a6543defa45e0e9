/** Identity succession (gitcellar-crypto/src/identity_succession.rs). */
module SuccessionVerify {
  import opened Words
  import opened Wrappers
  import opened SignedObjects
  import opened Signatures

  datatype SuccessionError =
    | EmptyField(name: string)
    | SameIdentity
    | NotNewerVersion(statementVersion: u32, current: u32)
    | InvalidPublicKey
    | SignatureInvalid

  /** `validate_shape` */
  function ValidateShape(env: Env, s: IdentitySuccession): Result<(), SuccessionError> {
    if env.unicode.NormalizeAccount(s.account) == "" then Err(EmptyField("account"))
    else if env.Norm(s.oldFingerprint) == "" then Err(EmptyField("old_fingerprint"))
    else if env.Norm(s.newFingerprint) == "" then Err(EmptyField("new_fingerprint"))
    else if env.Norm(s.oldFingerprint) == env.Norm(s.newFingerprint) then Err(SameIdentity)
    else Ok(())
  }

  /** `sign_identity_succession`: what the master would sign, or the refusal. */
  function SignSuccession(env: Env, master: PublicKey, s: IdentitySuccession, sig: Bytes)
    : Result<Signature, SuccessionError>
  {
    match ValidateShape(env, s)
    case Err(e) => Err(e)
    case Ok(_) => Ok(Signature(master, env.SignedBytes(Succession(s)), sig))
  }

  /** `verify_identity_succession`; `onCurve` says which byte strings are Ed25519 points. */
  function VerifySuccession(env: Env, log: Log, onCurve: PublicKey -> bool, master: PublicKey,
                            s: IdentitySuccession, sig: Bytes, current: u32): Result<(), SuccessionError>
  {
    match ValidateShape(env, s)
    case Err(e) => Err(e)
    case Ok(_) =>
      if s.newKeyVersion <= current then Err(NotNewerVersion(s.newKeyVersion, current))
      else if !onCurve(master) then Err(InvalidPublicKey)
      else if Signed(log, master, env.SignedBytes(Succession(s)), sig) then Ok(())
      else Err(SignatureInvalid)
  }

  /** Which refusal a statement gets: the first violation in this order, the signer's and the verifier's alike. */
  lemma RefusalsAre(env: Env, log: Log, onCurve: PublicKey -> bool, master: PublicKey,
                    s: IdentitySuccession, sig: Bytes, current: u32)
    ensures var verdict := VerifySuccession(env, log, onCurve, master, s, sig, current);
      var made := SignSuccession(env, master, s, sig);
      var account, from := env.unicode.NormalizeAccount(s.account), env.Norm(s.oldFingerprint);
      var to := env.Norm(s.newFingerprint);
      && (account == "" ==> verdict == Err(EmptyField("account")) && made == Err(EmptyField("account")))
      && (account != "" && from == "" ==>
            verdict == Err(EmptyField("old_fingerprint")) && made == Err(EmptyField("old_fingerprint")))
      && (account != "" && from != "" && to == "" ==>
            verdict == Err(EmptyField("new_fingerprint")) && made == Err(EmptyField("new_fingerprint")))
      && (account != "" && from != "" && from == to ==> verdict == Err(SameIdentity) && made == Err(SameIdentity))
      && (account != "" && from != "" && to != "" && from != to ==>
            && made == Ok(Signature(master, env.SignedBytes(Succession(s)), sig))
            && (s.newKeyVersion <= current ==> verdict == Err(NotNewerVersion(s.newKeyVersion, current)))
            && (s.newKeyVersion > current && !onCurve(master) ==> verdict == Err(InvalidPublicKey))
            && (s.newKeyVersion > current && onCurve(master) ==> verdict.Ok? || verdict == Err(SignatureInvalid)))
  {
    hide Signed, Env.SignedBytes;
  }

  /** Accepted exactly when account and identities are not blank, the identities differ, the version is newer
      than the account's, and that master signed the same account, identities, version and time. */
  lemma AcceptedIff(env: Env, log: Log, onCurve: PublicKey -> bool, master: PublicKey,
                    s: IdentitySuccession, sig: Bytes, current: u32)
    ensures VerifySuccession(env, log, onCurve, master, s, sig, current).Ok? <==>
      && env.unicode.NormalizeAccount(s.account) != ""
      && env.Norm(s.oldFingerprint) != "" && env.Norm(s.newFingerprint) != ""
      && env.Norm(s.oldFingerprint) != env.Norm(s.newFingerprint)
      && s.newKeyVersion > current && onCurve(master)
      && Attested(env, log, master, Succession(s), sig)
  {
    hide Attested, Signed, Env.SignedBytes;
    SignedIffAttested(env, log, master, Succession(s), sig);
  }

  /** What the signer refuses could never verify, and what it signs verifies for every earlier version. */
  lemma SignedVerifies(env: Env, log: Log, onCurve: PublicKey -> bool, master: PublicKey,
                       s: IdentitySuccession, sig: Bytes, current: u32)
    requires onCurve(master) && current < s.newKeyVersion
    requires SignSuccession(env, master, s, sig).Ok? ==> SignSuccession(env, master, s, sig).value in log
    ensures SignSuccession(env, master, s, sig).Ok? ==> VerifySuccession(env, log, onCurve, master, s, sig, current).Ok?
    ensures SignSuccession(env, master, s, sig).Err? ==>
      VerifySuccession(env, log, onCurve, master, s, sig, current) == Err(SignSuccession(env, master, s, sig).error)
  {
    hide ValidateShape, Env.SignedBytes;
    if SignSuccession(env, master, s, sig).Ok? {
      assert Signed(log, master, env.SignedBytes(Succession(s)), sig);
    }
  }

  datatype Presented = Presented(statement: IdentitySuccession, sig: Bytes)

  /** An account that adopts the key version of each statement it accepts. */
  function AcceptAll(env: Env, log: Log, onCurve: PublicKey -> bool, master: PublicKey,
                     presented: seq<Presented>, current: u32): (accepted: seq<IdentitySuccession>)
  {
    if presented == [] then []
    else
      var Presented(s, sig) := presented[0];
      if VerifySuccession(env, log, onCurve, master, s, sig, current).Ok? then
        [s] + AcceptAll(env, log, onCurve, master, presented[1..], s.newKeyVersion)
      else AcceptAll(env, log, onCurve, master, presented[1..], current)
  }

  /** Each version above the one before, the first above `current`. */
  predicate Rising(accepted: seq<IdentitySuccession>, current: int) {
    accepted != [] ==> current < accepted[0].newKeyVersion && Rising(accepted[1..], accepted[0].newKeyVersion)
  }

  lemma {:induction false} AcceptAllRises(env: Env, log: Log, onCurve: PublicKey -> bool, master: PublicKey,
                                          presented: seq<Presented>, current: u32)
    ensures Rising(AcceptAll(env, log, onCurve, master, presented, current), current)
    decreases |presented|
  {
    if presented != [] {
      var Presented(s, sig) := presented[0];
      AcceptedIff(env, log, onCurve, master, s, sig, current);
      hide VerifySuccession, ValidateShape, Attested;
      AcceptAllRises(env, log, onCurve, master, presented[1..], s.newKeyVersion);
      AcceptAllRises(env, log, onCurve, master, presented[1..], current);
      var later := AcceptAll(env, log, onCurve, master, presented[1..], s.newKeyVersion);
      assert ([s] + later)[1..] == later;
    }
  }

  lemma {:induction false} RisingIsIncreasing(accepted: seq<IdentitySuccession>, current: int, i: nat, j: nat)
    requires Rising(accepted, current) && i < j < |accepted|
    ensures current < accepted[i].newKeyVersion < accepted[j].newKeyVersion
  {
    if i > 0 {
      RisingIsIncreasing(accepted[1..], accepted[0].newKeyVersion, i - 1, j - 1);
    } else if j > 1 {
      RisingIsIncreasing(accepted[1..], accepted[0].newKeyVersion, 0, j - 1);
    }
  }

  /** Over any sequence of presented statements the version only rises, so no statement, however its
      fingerprints and account are rendered, is accepted twice: an old one replayed after a later
      succession does nothing. */
  lemma NoStatementAcceptedTwice(env: Env, log: Log, onCurve: PublicKey -> bool, master: PublicKey,
                                 presented: seq<Presented>, current: u32)
    ensures var accepted := AcceptAll(env, log, onCurve, master, presented, current);
      forall i, j :: 0 <= i < j < |accepted| ==>
        && current < accepted[i].newKeyVersion < accepted[j].newKeyVersion
        && env.Meaning(Succession(accepted[i])) != env.Meaning(Succession(accepted[j]))
  {
    AcceptAllRises(env, log, onCurve, master, presented, current);
    hide AcceptAll;
    var accepted := AcceptAll(env, log, onCurve, master, presented, current);
    forall i, j | 0 <= i < j < |accepted|
      ensures current < accepted[i].newKeyVersion < accepted[j].newKeyVersion
      ensures env.Meaning(Succession(accepted[i])) != env.Meaning(Succession(accepted[j]))
    {
      RisingIsIncreasing(accepted, current, i, j);
    }
  }
}
