/** Signed incident manifests and the client that follows them (gitcellar-crypto/src/broadcast.rs). */
module IncidentManifests {
  import opened Words
  import opened Wrappers
  import opened SignedObjects
  import opened Signatures
  import opened CanonicalWriters
  import Canonical
  import Utf8

  const ManifestVersion: u32 := 2
  const PayloadVersion: u32 := 1

  /** The signed unit; `display` stands for the id, tier, texts, link and targeting. Times are instants. */
  datatype BroadcastPayload = BroadcastPayload(
    v: u32, seqNo: i64, signerFingerprint: string, issuedAt: int, expiresAt: Option<int>, display: string)

  datatype IncidentManifest = IncidentManifest(
    manifestV: u32, state: ManifestState, seqNo: i64, payload: string, signature: string,
    signerFingerprint: string, issuedAt: int)
  {
    function Envelope(): SignedObject {
      Manifest(manifestV, state, seqNo, signerFingerprint, payload)
    }
  }

  /** The JSON codec of the payload: a deterministic printer and parser. */
  datatype Json = Json(render: BroadcastPayload -> Option<string>, parse: string -> Option<BroadcastPayload>) {
    /** What is rendered, if anything, is a JSON object and parses back. */
    ghost predicate Lawful() {
      forall p :: render(p).Some? ==> parse(render(p).value) == Some(p) && "{" <= render(p).value
    }
  }

  datatype Reason =
    | UnknownManifestVersion | SignatureNotBase64 | SignatureNotVerified | PayloadNotParsed
    | UnknownPayloadVersion | FingerprintMismatch | SeqMismatch | IssuedAtMismatch

  datatype ManifestVerdict =
    | ActiveVerdict(payload: BroadcastPayload, seqNo: i64)
    | ClearVerdict(seqNo: i64)
    | Stale
    | Expired(seqNo: i64)
    | NoTrustedSignal(reason: Reason)
  {
    /** The verdicts after which the client persists the manifest's `seq`. */
    predicate Accepts() {
      ActiveVerdict? || ClearVerdict? || Expired?
    }
  }

  datatype Served = Served(manifest: IncidentManifest, now: int)

  /** Each seq above the one before, the first above `mark`. */
  predicate Rising(ms: seq<IncidentManifest>, mark: int) {
    ms != [] ==> mark < ms[0].seqNo && Rising(ms[1..], ms[0].seqNo)
  }

  lemma {:induction false} RisingIsIncreasing(ms: seq<IncidentManifest>, mark: int, i: nat, j: nat)
    requires Rising(ms, mark) && i < j < |ms|
    ensures mark < ms[i].seqNo < ms[j].seqNo
  {
    if i > 0 {
      RisingIsIncreasing(ms[1..], ms[0].seqNo, i - 1, j - 1);
    } else if j > 1 {
      RisingIsIncreasing(ms[1..], ms[0].seqNo, 0, j - 1);
    }
  }

  /** What a client is built with: the world's signatures, the codecs and the pinned keys. */
  datatype Client = Client(env: Env, transport: Transport, json: Json, log: Log, trustSet: seq<string>) {

    predicate TrustSetVerifies(signed: Bytes, sig: Bytes) {
      exists k :: 0 <= k < |trustSet| && VerifyDetached(transport, log, trustSet[k], signed, sig) == Ok(true)
    }

    /** `verify_and_parse` */
    function VerifyAndParse(m: IncidentManifest, lastSeq: i64, now: int): ManifestVerdict {
      if m.manifestV != ManifestVersion then NoTrustedSignal(UnknownManifestVersion)
      else match transport.b64Decode(m.signature)
        case None => NoTrustedSignal(SignatureNotBase64)
        case Some(sig) =>
          if !TrustSetVerifies(env.SignedBytes(m.Envelope()), sig) then NoTrustedSignal(SignatureNotVerified)
          else match json.parse(m.payload)
            case None => NoTrustedSignal(PayloadNotParsed)
            case Some(p) =>
              if p.v != PayloadVersion then NoTrustedSignal(UnknownPayloadVersion)
              else if p.signerFingerprint != m.signerFingerprint then NoTrustedSignal(FingerprintMismatch)
              else if p.seqNo != m.seqNo then NoTrustedSignal(SeqMismatch)
              else if p.issuedAt != m.issuedAt then NoTrustedSignal(IssuedAtMismatch)
              else if m.seqNo <= lastSeq then Stale
              else if m.state == Clear then ClearVerdict(m.seqNo)
              else if p.expiresAt.Some? && now > p.expiresAt.value then Expired(m.seqNo)
              else ActiveVerdict(p, m.seqNo)
    }

    /** Some pinned key signed bytes that say this very envelope: version, state, seq, fingerprint and
        payload. Whatever else the pinned keys signed does not matter. */
    ghost predicate SignedByPinnedKey(m: IncidentManifest) {
      && transport.b64Decode(m.signature).Some?
      && exists k :: 0 <= k < |trustSet| && transport.parseCert(trustSet[k]).Some?
          && Attested(env, log, transport.parseCert(trustSet[k]).value, m.Envelope(),
                      transport.b64Decode(m.signature).value)
    }

    lemma TrustSetVerifiesIff(m: IncidentManifest)
      requires transport.b64Decode(m.signature).Some?
      ensures TrustSetVerifies(env.SignedBytes(m.Envelope()), transport.b64Decode(m.signature).value)
        <==> SignedByPinnedKey(m)
    {
      hide Env.SignedBytes, Signed, Attested;
      var data, sig := env.SignedBytes(m.Envelope()), transport.b64Decode(m.signature).value;
      forall k | 0 <= k < |trustSet| && transport.parseCert(trustSet[k]).Some?
        ensures VerifyDetached(transport, log, trustSet[k], data, sig) == Ok(true)
          <==> Attested(env, log, transport.parseCert(trustSet[k]).value, m.Envelope(), sig)
      {
        SignedIffAttested(env, log, transport.parseCert(trustSet[k]).value, m.Envelope(), sig);
      }
    }

    /** The envelope agrees with the payload it carries. */
    predicate Consistent(m: IncidentManifest) {
      match json.parse(m.payload)
      case None => false
      case Some(p) =>
        p.v == PayloadVersion && p.signerFingerprint == m.signerFingerprint && p.seqNo == m.seqNo
        && p.issuedAt == m.issuedAt
    }

    /** A manifest is believed exactly when it is of the current version, a pinned key signed its
        envelope, its payload agrees with it in signer, seq and issue time, and its seq is above the
        mark. Then the signed state alone decides all-clear, and expiry only an active incident. */
    lemma AcceptedIff(m: IncidentManifest, lastSeq: i64, now: int)
      ensures var verdict := VerifyAndParse(m, lastSeq, now);
        && (verdict.Accepts() <==>
              m.manifestV == ManifestVersion && SignedByPinnedKey(m) && Consistent(m) && m.seqNo > lastSeq)
        && (verdict == Stale <==>
              m.manifestV == ManifestVersion && SignedByPinnedKey(m) && Consistent(m) && m.seqNo <= lastSeq)
        && (verdict.Accepts() ==>
              var p := json.parse(m.payload).value;
              var past := p.expiresAt.Some? && now > p.expiresAt.value;
              verdict == match m.state
                case Clear => ClearVerdict(m.seqNo)
                case Active => if past then Expired(m.seqNo) else ActiveVerdict(p, m.seqNo))
    {
      hide Env.SignedBytes, TrustSetVerifies;
      if transport.b64Decode(m.signature).Some? {
        TrustSetVerifiesIff(m);
      }
    }

    /** Which refusal a manifest gets: the first of these that applies. */
    lemma RefusalsAre(m: IncidentManifest, lastSeq: i64, now: int)
      ensures var verdict := VerifyAndParse(m, lastSeq, now);
        var sig, p := transport.b64Decode(m.signature), json.parse(m.payload);
        && (m.manifestV != 2 ==> verdict == NoTrustedSignal(UnknownManifestVersion))
        && (m.manifestV == 2 && sig.None? ==> verdict == NoTrustedSignal(SignatureNotBase64))
        && (m.manifestV == 2 && sig.Some? && !SignedByPinnedKey(m) ==> verdict == NoTrustedSignal(SignatureNotVerified))
        && (m.manifestV == 2 && SignedByPinnedKey(m) ==>
              if p.None? then verdict == NoTrustedSignal(PayloadNotParsed)
              else if p.value.v != 1 then verdict == NoTrustedSignal(UnknownPayloadVersion)
              else if p.value.signerFingerprint != m.signerFingerprint then
                verdict == NoTrustedSignal(FingerprintMismatch)
              else if p.value.seqNo != m.seqNo then verdict == NoTrustedSignal(SeqMismatch)
              else if p.value.issuedAt != m.issuedAt then verdict == NoTrustedSignal(IssuedAtMismatch)
              else verdict.Accepts() || verdict == Stale)
    {
      hide Env.SignedBytes, TrustSetVerifies, SignedByPinnedKey;
      if transport.b64Decode(m.signature).Some? {
        TrustSetVerifiesIff(m);
      } else {
        PinnedNeedsSignature(m);
      }
    }

    lemma PinnedNeedsSignature(m: IncidentManifest)
      ensures SignedByPinnedKey(m) ==> transport.b64Decode(m.signature).Some?
    {
    }

    // ----- Runs

    /** What a client does with one served manifest: its new high-water mark. */
    function Mark(m: IncidentManifest, lastSeq: i64, now: int): i64 {
      match VerifyAndParse(m, lastSeq, now)
      case ActiveVerdict(_, s) => s
      case ClearVerdict(s) => s
      case Expired(s) => s
      case Stale => lastSeq
      case NoTrustedSignal(_) => lastSeq
    }

    /** The manifests believed over a run, in order. */
    function Accepted(served: seq<Served>, lastSeq: i64): seq<IncidentManifest> {
      if served == [] then []
      else
        var Served(m, now) := served[0];
        (if VerifyAndParse(m, lastSeq, now).Accepts() then [m] else [])
        + Accepted(served[1..], Mark(m, lastSeq, now))
    }

    function FinalMark(served: seq<Served>, lastSeq: i64): i64 {
      if served == [] then lastSeq else FinalMark(served[1..], Mark(served[0].manifest, lastSeq, served[0].now))
    }

    lemma {:induction false} RunRises(served: seq<Served>, lastSeq: i64)
      ensures Rising(Accepted(served, lastSeq), lastSeq)
      ensures forall m :: m in Accepted(served, lastSeq) ==> SignedByPinnedKey(m) && Consistent(m)
      ensures FinalMark(served, lastSeq)
           == if Accepted(served, lastSeq) == [] then lastSeq
              else Accepted(served, lastSeq)[|Accepted(served, lastSeq)| - 1].seqNo
      decreases |served|
    {
      if served != [] {
        var Served(m, now) := served[0];
        AcceptedIff(m, lastSeq, now);
        hide VerifyAndParse, SignedByPinnedKey, Consistent;
        var mark := Mark(m, lastSeq, now);
        MarkIs(m, lastSeq, now);
        RunRises(served[1..], mark);
        var later := Accepted(served[1..], mark);
        AcceptedStep(served, lastSeq);
        hide Accepted, Mark, ManifestVerdict.Accepts;
        if VerifyAndParse(m, lastSeq, now).Accepts() {
          assert Accepted(served, lastSeq) == [m] + later && ([m] + later)[1..] == later;
        } else {
          assert Accepted(served, lastSeq) == later;
        }
      }
    }

    lemma AcceptedStep(served: seq<Served>, lastSeq: i64)
      requires served != []
      ensures var Served(m, now) := served[0];
        Accepted(served, lastSeq)
          == (if VerifyAndParse(m, lastSeq, now).Accepts() then [m] else [])
             + Accepted(served[1..], Mark(m, lastSeq, now))
    {
      hide VerifyAndParse, Mark;
    }

    /** A refused or stale manifest leaves the mark alone; a believed one moves it to its own seq. */
    lemma MarkIs(m: IncidentManifest, lastSeq: i64, now: int)
      ensures Mark(m, lastSeq, now) == if VerifyAndParse(m, lastSeq, now).Accepts() then m.seqNo else lastSeq
    {
      hide TrustSetVerifies, Env.SignedBytes;
    }

    /** For any sequence of served manifests, whoever serves them: the mark rises strictly with every
        manifest believed, none is believed twice, and each one is, field for field, an envelope that a
        pinned key signed, with the issue time of the payload it signed. */
    lemma RunIsSafe(served: seq<Served>, lastSeq: i64, i: nat, j: nat)
      requires i < j < |Accepted(served, lastSeq)|
      ensures var a := Accepted(served, lastSeq);
        && lastSeq < a[i].seqNo < a[j].seqNo <= FinalMark(served, lastSeq)
        && a[i].Envelope() != a[j].Envelope()
        && SignedByPinnedKey(a[j]) && Consistent(a[j])
    {
      hide SignedByPinnedKey, Consistent, Rising, Env.SignedBytes;
      RunRises(served, lastSeq);
      hide Accepted, FinalMark;
      var a := Accepted(served, lastSeq);
      RisingIsIncreasing(a, lastSeq, i, j);
      assert a[j] in a;
      if j < |a| - 1 {
        RisingIsIncreasing(a, lastSeq, j, |a| - 1);
      }
    }
  }

  // ----- The producer

  datatype SignError = NotSerialized | SigningFailed

  /** The manifest is `payload` in `state` with the envelope copied from it, and its signature is `sig`. */
  ghost predicate Announces(t: Transport, json: Json, m: IncidentManifest, state: ManifestState,
                            payload: BroadcastPayload, sig: Bytes)
  {
    && m.manifestV == ManifestVersion && m.state == state && json.render(payload) == Some(m.payload)
    && m.seqNo == payload.seqNo && m.signerFingerprint == payload.signerFingerprint && m.issuedAt == payload.issuedAt
    && m.signature == t.b64Encode(sig)
  }

  /** `IncidentManifest::sign`; `sign` is the engine's `sign_data`, which may fail. What is signed is the
      canonical of the envelope that is returned. */
  method SignManifest(env: Env, t: Transport, json: Json, sign: Bytes -> Option<Bytes>, state: ManifestState,
                      payload: BroadcastPayload) returns (r: Result<IncidentManifest, SignError>)
    ensures r == Err(NotSerialized) <==> json.render(payload).None?
    ensures r.Ok? ==>
      var sig := sign(env.SignedBytes(r.value.Envelope()));
      sig.Some? && Announces(t, json, r.value, state, payload, sig.value)
    ensures r == Err(SigningFailed) ==>
      var text := json.render(payload);
      text.Some? && sign(env.SignedBytes(
        Manifest(ManifestVersion, state, payload.seqNo, payload.signerFingerprint, text.value))).None?
  {
    hide Canonical.Encode, Canonical.Decimal, Utf8.Encode, Env.SignedBytes;
    var text := json.render(payload);
    if text.None? {
      return Err(NotSerialized);
    }
    var manifest := IncidentManifest(ManifestVersion, state, payload.seqNo, text.value, "",
                                     payload.signerFingerprint, payload.issuedAt);
    var data := IncidentManifestSignedBytes(env, manifest.manifestV, manifest.state, manifest.seqNo,
                                            manifest.signerFingerprint, manifest.payload);
    var sig := sign(data);
    if sig.None? {
      return Err(SigningFailed);
    }
    return Ok(manifest.(signature := t.b64Encode(sig.value)));
  }

  /** A manifest signed by a pinned key is believed exactly when its seq is new and its payload is of
      the current version. */
  lemma ProducedIsAccepted(c: Client, key: PublicKey, m: IncidentManifest, state: ManifestState,
                           payload: BroadcastPayload, sig: Bytes, k: nat, lastSeq: i64, now: int)
    requires c.transport.Lawful() && c.json.Lawful()
    requires k < |c.trustSet| && c.transport.parseCert(c.trustSet[k]) == Some(key)
    ensures var signature := Signature(key, c.env.SignedBytes(m.Envelope()), sig);
      Announces(c.transport, c.json, m, state, payload, sig) && signature in c.log ==>
        (c.VerifyAndParse(m, lastSeq, now).Accepts() <==> payload.v == PayloadVersion && payload.seqNo > lastSeq)
  {
    hide Client.VerifyAndParse, Env.SignedBytes, Attested;
    if Announces(c.transport, c.json, m, state, payload, sig)
      && Signature(key, c.env.SignedBytes(m.Envelope()), sig) in c.log
    {
      c.AcceptedIff(m, lastSeq, now);
      SignedIffAttested(c.env, c.log, key, m.Envelope(), sig);
      assert c.SignedByPinnedKey(m);
    }
  }

  // ----- A signature over a bare payload

  /** The bytes of a payload's own text, as the live push signs them. */
  ghost predicate IsBarePayload(json: Json, data: Bytes) {
    exists p :: json.render(p).Some? && data == Utf8.Encode(json.render(p).value)
  }

  lemma BarePayloadOpensWithBrace(json: Json, data: Bytes)
    requires json.Lawful() && IsBarePayload(json, data)
    ensures data != [] && !Canonical.IsDigit(data[0])
  {
    var p :| json.render(p).Some? && data == Utf8.Encode(json.render(p).value);
    assert json.render(p).value[0] == '{';
  }

  /** A signature made over bare payloads only, by whatever keys, never makes a manifest believed or even
      stale, whatever envelope is put around it. */
  lemma BarePayloadSignatureRefused(c: Client, m: IncidentManifest, lastSeq: i64, now: int)
    requires c.json.Lawful()
    requires forall i :: 0 <= i < |c.log| && c.transport.b64Decode(m.signature) == Some(c.log[i].sig) ==>
      IsBarePayload(c.json, c.log[i].data)
    ensures c.VerifyAndParse(m, lastSeq, now).NoTrustedSignal?
  {
    hide Client.VerifyAndParse, IsBarePayload, Attested;
    c.AcceptedIff(m, lastSeq, now);
    if c.SignedByPinnedKey(m) {
      var sig := c.transport.b64Decode(m.signature).value;
      var k :| 0 <= k < |c.trustSet| && c.transport.parseCert(c.trustSet[k]).Some?
        && Attested(c.env, c.log, c.transport.parseCert(c.trustSet[k]).value, m.Envelope(), sig);
      forall i | 0 <= i < |c.log| && c.log[i].sig == sig
        ensures c.log[i].data != [] && !Canonical.IsDigit(c.log[i].data[0])
      {
        BarePayloadOpensWithBrace(c.json, c.log[i].data);
      }
      NotADigitSaysNothing(c.env, c.log, c.transport.parseCert(c.trustSet[k]).value, m.Envelope(), sig);
    }
  }

  /** And a signature made over signed canonicals only never verifies as a bare payload's. */
  lemma CanonicalSignatureIsNoPayload(env: Env, t: Transport, json: Json, log: Log, cert: string,
                                      payload: BroadcastPayload, sig: Bytes)
    requires json.Lawful() && json.render(payload).Some?
    requires forall i :: 0 <= i < |log| && log[i].sig == sig ==> exists o :: log[i].data == env.SignedBytes(o)
    ensures VerifyDetached(t, log, cert, Utf8.Encode(json.render(payload).value), sig) != Ok(true)
  {
    hide Env.SignedBytes, Utf8.Encode;
    var data := Utf8.Encode(json.render(payload).value);
    BarePayloadOpensWithBrace(json, data);
    if t.parseCert(cert).Some? && Signed(log, t.parseCert(cert).value, data, sig) {
      var i :| 0 <= i < |log| && log[i] == Signature(t.parseCert(cert).value, data, sig);
      var o :| log[i].data == env.SignedBytes(o);
      env.SignedBytesStartWithDigit(o);
    }
  }
}
