/** Creating the device keypair as crashable file steps (gitcellar-crypto/src/keystore.rs). */
module Keystore {
  import opened Words
  import opened Wrappers

  type Seed = Bytes

  /** What the keystore computes with: the public half of a seed, the test that 32 bytes are a public
      key, the at-rest seal and its reader. */
  datatype KeyEnv = KeyEnv(publicOf: Seed -> Bytes, isPoint: Bytes -> bool,
                           seal: Seed -> Option<Bytes>, unseal: Bytes -> Option<Seed>)
  {
    /** Whatever the sealer returns opens to the seed that was sealed; a seed's public half is a key. */
    ghost predicate Lawful() {
      && (forall s :: seal(s).Some? ==> unseal(seal(s).value) == Some(s))
      && (forall s :: |publicOf(s)| == 32 && isPoint(publicOf(s)))
    }
  }

  /** The two key files and their temporaries. */
  datatype Disk = Disk(privTmp: Option<Bytes>, priv: Option<Bytes>, pubTmp: Option<Bytes>, pub: Option<Bytes>)

  const EmptyDir := Disk(None, None, None, None)

  datatype KeystoreError = NotInitialized | InvalidKey | SealFailed | IoError

  /** How one call fares: it completes, fails with an I/O error, or the process dies, after `steps`
      file steps; `torn` is what a temporary being written at that moment holds, if it was touched. */
  datatype Fate = Fate(steps: nat, crash: bool, torn: Option<Bytes>)

  datatype Outcome = Returned(pub: Bytes) | Failed(error: KeystoreError) | Crashed

  /** `export_pubkey`, given the cache. */
  function ExportPubkey(env: KeyEnv, disk: Disk, cached: Option<Bytes>): Result<Bytes, KeystoreError> {
    if cached.Some? then Ok(cached.value)
    else match disk.pub
      case None => Err(NotInitialized)
      case Some(bytes) => if |bytes| == 32 && env.isPoint(bytes) then Ok(bytes) else Err(InvalidKey)
  }

  /** A public-key file is exported only if it is 32 bytes that are a key; any other is refused, as is none. */
  lemma ExportIs(env: KeyEnv, disk: Disk)
    ensures disk.pub.None? ==> ExportPubkey(env, disk, None) == Err(NotInitialized)
    ensures disk.pub.Some? ==>
      var bytes := disk.pub.value;
      ExportPubkey(env, disk, None) == if |bytes| == 32 && env.isPoint(bytes) then Ok(bytes) else Err(InvalidKey)
  {
  }

  /** `read_signing_key`: the seed the private file opens to. */
  function ReadSigningKey(env: KeyEnv, disk: Disk): Result<Seed, KeystoreError> {
    match disk.priv
    case None => Err(NotInitialized)
    case Some(raw) => match env.unseal(raw) case None => Err(InvalidKey) case Some(seed) => Ok(seed)
  }

  /** An interrupted write leaves the temporary as it was, or holding anything. */
  function Touch(file: Option<Bytes>, torn: Option<Bytes>): Option<Bytes> {
    if torn.Some? then torn else file
  }

  /** The disk after `done` of the six file steps: write, rename and restrict the private file, then
      write, rename and restrict the public file. */
  function AfterSteps(disk: Disk, sealed: Bytes, pub: Bytes, done: nat, torn: Option<Bytes>): Disk {
    if done == 0 then disk.(privTmp := Touch(disk.privTmp, torn))
    else if done == 1 then disk.(privTmp := Some(sealed))
    else
      var stored := disk.(privTmp := None, priv := Some(sealed));
      if done == 2 then stored
      else if done == 3 then stored.(pubTmp := Touch(disk.pubTmp, torn))
      else if done == 4 then stored.(pubTmp := Some(pub))
      else stored.(pubTmp := None, pub := Some(pub))
  }

  /** One call of `generate_device_keypair` with seed `seed` drawn: the disk, the cache and the outcome. */
  function Generate(env: KeyEnv, disk: Disk, cached: Option<Bytes>, seed: Seed, fate: Fate)
    : (Disk, Option<Bytes>, Outcome)
  {
    if disk.priv.Some? && disk.pub.Some? then
      match ExportPubkey(env, disk, cached)
      case Ok(pub) => (disk, cached, Returned(pub))
      case Err(e) => (disk, cached, Failed(e))
    else match env.seal(seed)
      case None => (disk, cached, Failed(SealFailed))
      case Some(sealed) =>
        var disk' := AfterSteps(disk, sealed, env.publicOf(seed), fate.steps, fate.torn);
        if fate.steps >= 6 then (disk', Some(env.publicOf(seed)), Returned(env.publicOf(seed)))
        else (disk', cached, if fate.crash then Crashed else Failed(IoError))
  }

  /** A keystore object: the identity directory's files, written in place, and the cached public key. */
  class FileSystemKeystore {
    const env: KeyEnv
    var disk: Disk
    var cachedPubkey: Option<Bytes>

    constructor (env: KeyEnv, disk: Disk)
      ensures this.env == env && this.disk == disk && cachedPubkey == None
    {
      this.env, this.disk, cachedPubkey := env, disk, None;
    }

    /** `write_atomic` for the private file: write the temporary, rename it, restrict the file's mode.
        `fuel` is how many file steps still complete. */
    method WritePrivate(contents: Bytes, fuel: nat, torn: Option<Bytes>) returns (left: nat, done: bool)
      modifies `disk
      ensures done <==> fuel >= 3
      ensures done ==> left == fuel - 3
      ensures fuel == 0 ==> disk == old(disk).(privTmp := Touch(old(disk).privTmp, torn))
      ensures fuel == 1 ==> disk == old(disk).(privTmp := Some(contents))
      ensures fuel >= 2 ==> disk == old(disk).(privTmp := None, priv := Some(contents))
    {
      left := fuel;
      if left == 0 {
        disk := disk.(privTmp := Touch(disk.privTmp, torn));
        return left, false;
      }
      disk := disk.(privTmp := Some(contents));
      left := left - 1;
      if left == 0 {
        return left, false;
      }
      disk := disk.(privTmp := None, priv := disk.privTmp);
      left := left - 1;
      if left == 0 {
        return left, false;
      }
      left := left - 1;
      done := true;
    }

    /** `write_atomic` for the public file. */
    method WritePublic(contents: Bytes, fuel: nat, torn: Option<Bytes>) returns (left: nat, done: bool)
      modifies `disk
      ensures done <==> fuel >= 3
      ensures done ==> left == fuel - 3
      ensures fuel == 0 ==> disk == old(disk).(pubTmp := Touch(old(disk).pubTmp, torn))
      ensures fuel == 1 ==> disk == old(disk).(pubTmp := Some(contents))
      ensures fuel >= 2 ==> disk == old(disk).(pubTmp := None, pub := Some(contents))
    {
      left := fuel;
      if left == 0 {
        disk := disk.(pubTmp := Touch(disk.pubTmp, torn));
        return left, false;
      }
      disk := disk.(pubTmp := Some(contents));
      left := left - 1;
      if left == 0 {
        return left, false;
      }
      disk := disk.(pubTmp := None, pub := disk.pubTmp);
      left := left - 1;
      if left == 0 {
        return left, false;
      }
      left := left - 1;
      done := true;
    }

    /** `generate_device_keypair` */
    method GenerateDeviceKeypair(seed: Seed, fate: Fate) returns (outcome: Outcome)
      modifies this
      ensures (disk, cachedPubkey, outcome) == Generate(env, old(disk), old(cachedPubkey), seed, fate)
    {
      if disk.priv.Some? && disk.pub.Some? {
        match ExportPubkey(env, disk, cachedPubkey) {
          case Ok(pub) => return Returned(pub);
          case Err(e) => return Failed(e);
        }
      }
      var pubkey := env.publicOf(seed);
      var sealed := env.seal(seed);
      if sealed.None? {
        return Failed(SealFailed);
      }
      var stopped := if fate.crash then Crashed else Failed(IoError);
      var left, done := WritePrivate(sealed.value, fate.steps, fate.torn);
      if !done {
        return stopped;
      }
      left, done := WritePublic(pubkey, left, fate.torn);
      if !done {
        return stopped;
      }
      cachedPubkey := Some(pubkey);
      return Returned(pubkey);
    }
  }

  // ----- Crash safety

  /** One attempt in a run: the seed drawn, how it fares, and whether the process restarts after it. */
  datatype Attempt = Attempt(seed: Seed, fate: Fate, restart: bool)

  /** Disk and cache after an attempt; a crash or a restart forgets the cache. */
  function Try(env: KeyEnv, disk: Disk, cached: Option<Bytes>, a: Attempt): (Disk, Option<Bytes>) {
    var (disk', cached', outcome) := Generate(env, disk, cached, a.seed, a.fate);
    (disk', if outcome.Crashed? || a.restart then None else cached')
  }

  function RunAll(env: KeyEnv, disk: Disk, cached: Option<Bytes>, attempts: seq<Attempt>): (Disk, Option<Bytes>)
    decreases |attempts|
  {
    if attempts == [] then (disk, cached)
    else var (disk', cached') := Try(env, disk, cached, attempts[0]); RunAll(env, disk', cached', attempts[1..])
  }

  /** The public file, if present, holds the public half of the seed the private file opens to; the
      cache, if filled, agrees with it. */
  ghost predicate Matched(env: KeyEnv, disk: Disk, cached: Option<Bytes>) {
    && (disk.pub.Some? ==>
          var seed := ReadSigningKey(env, disk);
          seed.Ok? && disk.pub == Some(env.publicOf(seed.value)))
    && (cached.Some? ==> cached == disk.pub)
  }

  lemma TryKeepsMatched(env: KeyEnv, disk: Disk, cached: Option<Bytes>, a: Attempt)
    requires env.Lawful() && Matched(env, disk, cached)
    ensures var (disk', cached') := Try(env, disk, cached, a);
      && Matched(env, disk', cached')
      && (disk.pub.Some? ==> disk' == disk)
  {
  }

  /** From any matched directory and through any sequence of attempts, with a crash or an I/O error
      allowed between any two file steps and inside any write: a present public-key file matches the
      present private-key file, exporting returns the key that signing uses, and once the pair is
      there no later attempt changes either file. */
  lemma {:induction false} CrashSafe(env: KeyEnv, disk: Disk, cached: Option<Bytes>, attempts: seq<Attempt>)
    requires env.Lawful() && Matched(env, disk, cached)
    ensures var (disk', cached') := RunAll(env, disk, cached, attempts);
      && Matched(env, disk', cached')
      && (disk.pub.Some? ==> disk' == disk)
      && (disk'.pub.Some? ==>
            ExportPubkey(env, disk', cached') == Ok(env.publicOf(ReadSigningKey(env, disk').value)))
    decreases |attempts|
  {
    if attempts != [] {
      TryKeepsMatched(env, disk, cached, attempts[0]);
      hide Try, Matched;
      var (disk', cached') := Try(env, disk, cached, attempts[0]);
      CrashSafe(env, disk', cached', attempts[1..]);
    }
  }

  lemma {:induction false} RunAllAppend(env: KeyEnv, disk: Disk, cached: Option<Bytes>, first: seq<Attempt>,
                                        later: seq<Attempt>)
    ensures var (disk', cached') := RunAll(env, disk, cached, first);
      RunAll(env, disk, cached, first + later) == RunAll(env, disk', cached', later)
    decreases |first|
  {
    if first == [] {
      assert first + later == later;
    } else {
      hide Try;
      var (disk', cached') := Try(env, disk, cached, first[0]);
      assert (first + later)[1..] == first[1..] + later;
      RunAllAppend(env, disk', cached', first[1..], later);
    }
  }

  /** From an empty identity directory: after any attempts a present public-key file matches the present
      private-key file and is what exporting returns, and whatever attempts follow, a pair once complete
      stays as it is. */
  lemma CrashSafeFromEmpty(env: KeyEnv, attempts: seq<Attempt>, later: seq<Attempt>)
    requires env.Lawful()
    ensures var (disk, cached) := RunAll(env, EmptyDir, None, attempts);
      && (disk.pub.Some? ==>
            && ReadSigningKey(env, disk).Ok?
            && disk.pub == Some(env.publicOf(ReadSigningKey(env, disk).value))
            && ExportPubkey(env, disk, cached) == Ok(disk.pub.value)
            && RunAll(env, EmptyDir, None, attempts + later).0 == disk)
  {
    CrashSafe(env, EmptyDir, None, attempts);
    hide RunAll;
    var (disk, cached) := RunAll(env, EmptyDir, None, attempts);
    RunAllAppend(env, EmptyDir, None, attempts, later);
    CrashSafe(env, disk, cached, later);
  }

  /** What each attempt of a run returned. */
  function Outcomes(env: KeyEnv, disk: Disk, cached: Option<Bytes>, attempts: seq<Attempt>): (r: seq<Outcome>)
    ensures |r| == |attempts|
    decreases |attempts|
  {
    if attempts == [] then []
    else
      var (disk', cached') := Try(env, disk, cached, attempts[0]);
      [Generate(env, disk, cached, attempts[0].seed, attempts[0].fate).2] + Outcomes(env, disk', cached', attempts[1..])
  }

  lemma ReturnedKeyIsStored(env: KeyEnv, disk: Disk, cached: Option<Bytes>, a: Attempt)
    requires env.Lawful() && Matched(env, disk, cached)
    ensures var outcome := Generate(env, disk, cached, a.seed, a.fate).2;
      && (outcome.Returned? ==> Try(env, disk, cached, a).0.pub == Some(outcome.pub))
      && (outcome.Returned? && disk.pub.Some? ==> outcome.pub == disk.pub.value)
  {
  }

  lemma {:induction false} ReturnsStoredKey(env: KeyEnv, disk: Disk, cached: Option<Bytes>,
                                            attempts: seq<Attempt>, i: nat)
    requires env.Lawful() && Matched(env, disk, cached) && disk.pub.Some?
    requires i < |attempts| && Outcomes(env, disk, cached, attempts)[i].Returned?
    ensures Outcomes(env, disk, cached, attempts)[i].pub == disk.pub.value
    decreases |attempts|
  {
    TryKeepsMatched(env, disk, cached, attempts[0]);
    ReturnedKeyIsStored(env, disk, cached, attempts[0]);
    hide Try, Matched, Generate;
    if i > 0 {
      var (disk', cached') := Try(env, disk, cached, attempts[0]);
      ReturnsStoredKey(env, disk', cached', attempts[1..], i - 1);
    }
  }

  /** However often creation is retried, all calls that return a key return the same one. */
  lemma {:induction false} OneDeviceKey(env: KeyEnv, disk: Disk, cached: Option<Bytes>,
                                        attempts: seq<Attempt>, i: nat, j: nat)
    requires env.Lawful() && Matched(env, disk, cached) && i < j < |attempts|
    requires Outcomes(env, disk, cached, attempts)[i].Returned? && Outcomes(env, disk, cached, attempts)[j].Returned?
    ensures Outcomes(env, disk, cached, attempts)[i] == Outcomes(env, disk, cached, attempts)[j]
    decreases |attempts|
  {
    TryKeepsMatched(env, disk, cached, attempts[0]);
    ReturnedKeyIsStored(env, disk, cached, attempts[0]);
    hide Try, Matched, Generate;
    var (disk', cached') := Try(env, disk, cached, attempts[0]);
    if i > 0 {
      OneDeviceKey(env, disk', cached', attempts[1..], i - 1, j - 1);
    } else {
      ReturnsStoredKey(env, disk', cached', attempts[1..], j - 1);
    }
  }

  /** The call returns a key exactly when the pair is already there or every file step completes under
      a working sealer; a failed seal writes nothing, and never a plaintext seed. */
  lemma GenerateSucceedsIff(env: KeyEnv, disk: Disk, cached: Option<Bytes>, seed: Seed, fate: Fate)
    requires env.Lawful() && Matched(env, disk, cached)
    ensures var (disk', cached', outcome) := Generate(env, disk, cached, seed, fate);
      && (outcome.Returned? <==> disk.pub.Some? || (env.seal(seed).Some? && fate.steps >= 6))
      && (outcome.Returned? ==> disk'.pub == Some(outcome.pub))
      && (outcome.Returned? && disk.pub.None? ==> cached' == Some(outcome.pub))
      && (outcome == Failed(SealFailed) ==> disk' == disk)
      && (env.seal(seed).None? ==> disk' == disk)
  {
  }

  /** The disk after `done` of the six file steps if the public file were written first. */
  function AfterStepsPublicFirst(disk: Disk, sealed: Bytes, pub: Bytes, done: nat, torn: Option<Bytes>): Disk {
    if done == 0 then disk.(pubTmp := Touch(disk.pubTmp, torn))
    else if done == 1 then disk.(pubTmp := Some(pub))
    else
      var stored := disk.(pubTmp := None, pub := Some(pub));
      if done == 2 then stored
      else if done == 3 then stored.(privTmp := Touch(disk.privTmp, torn))
      else if done == 4 then stored.(privTmp := Some(sealed))
      else stored.(privTmp := None, priv := Some(sealed))
  }

  /** The order of the two writes matters. With the public file first, a crash in a directory without a
      pair leaves a public key that no stored private key matches exactly when it falls between the two
      renames, unless the drawn seed happens to have the stored seed's public half. In the source's order
      every point is safe. */
  lemma PublicFirstIsUnsafeIff(env: KeyEnv, disk: Disk, seed: Seed, sealed: Bytes, fate: Fate)
    requires env.Lawful() && Matched(env, disk, None) && disk.pub.None? && env.seal(seed) == Some(sealed)
    ensures Matched(env, AfterSteps(disk, sealed, env.publicOf(seed), fate.steps, fate.torn), None)
    ensures var stored := ReadSigningKey(env, disk);
      var disk' := AfterStepsPublicFirst(disk, sealed, env.publicOf(seed), fate.steps, fate.torn);
      var samePublic := stored.Ok? && env.publicOf(stored.value) == env.publicOf(seed);
      Matched(env, disk', None) <==> samePublic || !(2 <= fate.steps < 5)
  {
  }
}
