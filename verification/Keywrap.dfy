/** The Local Protection Key: where it lives, when it may be minted, and what is sealed under it
    (passkey-core/src/keywrap.rs). */
module Keywrap {
  import opened Words
  import opened Wrappers
  import opened Aead
  import Utf8

  type Key = k: Bytes | |k| == 32 witness seq(32, _ => 0)

  datatype LpkError =
    | LpkMissing            // carries LPK_MISSING_MARKER
    | RetrievalFailed | DecodeFailed | NotKeySized | PersistFailed
    | BothConfigured | FileUnreadable | SecretTooShort | NoSource

  datatype LpkMode = Open | Seal | Remint

  datatype LpkSource = OsKeyring | Headless

  // ----- The headless secret

  /** Text functions the configuration reader uses: trimming and the HKDF derivation of a key. */
  datatype HeadlessEnv = HeadlessEnv(trim: string -> string, derive: string -> Key)

  const HeadlessMinLen := 32

  /** `headless_lpk_from`; `readFile` is what the named file holds, if it can be read. */
  function HeadlessLpkFrom(h: HeadlessEnv, secret: Option<string>, file: Option<string>,
                           readFile: string -> Option<string>): Result<Option<Key>, LpkError>
  {
    var s := if secret.Some? && h.trim(secret.value) == "" then None else secret;
    var f := if file.Some? && h.trim(file.value) == "" then None else file;
    match (s, f)
    case (None, None) => Ok(None)
    case (Some(_), Some(_)) => Err(BothConfigured)
    case (Some(v), None) => FromRaw(h, v)
    case (None, Some(path)) =>
      match readFile(h.trim(path))
      case None => Err(FileUnreadable)
      case Some(v) => FromRaw(h, v)
  }

  function FromRaw(h: HeadlessEnv, raw: string): Result<Option<Key>, LpkError> {
    if |h.trim(raw)| < HeadlessMinLen then Err(SecretTooShort) else Ok(Some(h.derive(h.trim(raw))))
  }

  /** Only values that are missing or blank read as no configuration; any other, however broken, gives a key
      or an error. The key depends only on the trimmed secret, whichever of the two ways it was given. */
  lemma HeadlessConfiguration(h: HeadlessEnv, secret: Option<string>, file: Option<string>,
                              readFile: string -> Option<string>, raw: string)
    ensures HeadlessLpkFrom(h, secret, file, readFile) == Ok(None) <==>
      (secret.None? || h.trim(secret.value) == "") && (file.None? || h.trim(file.value) == "")
    ensures h.trim(raw) != "" && file.Some? && h.trim(file.value) != "" && readFile(h.trim(file.value)) == Some(raw) ==>
      HeadlessLpkFrom(h, Some(raw), None, readFile) == HeadlessLpkFrom(h, None, file, readFile)
  {
  }

  /** Every outcome of reading the configuration: which values count as given, the least length, in
      characters, and that the key is derived from the trimmed secret itself. */
  lemma HeadlessOutcomes(h: HeadlessEnv, secret: Option<string>, file: Option<string>,
                         readFile: string -> Option<string>)
    ensures var inline := secret.Some? && h.trim(secret.value) != "";
      var named := file.Some? && h.trim(file.value) != "";
      var raw := if inline then secret else if named then readFile(h.trim(file.value)) else None;
      HeadlessLpkFrom(h, secret, file, readFile) ==
        if !inline && !named then Ok(None)
        else if inline && named then Err(BothConfigured)
        else if raw.None? then Err(FileUnreadable)
        else if |h.trim(raw.value)| < 32 then Err(SecretTooShort)
        else Ok(Some(h.derive(h.trim(raw.value))))
  {
  }

  /** `choose_lpk`; `os` is what the OS keyring would answer if it were asked. */
  function ChooseLpk(osPersistent: bool, os: Result<Key, LpkError>, headless: Result<Option<Key>, LpkError>)
    : Result<(Key, LpkSource), LpkError>
  {
    if osPersistent && os.Ok? then Ok((os.value, OsKeyring))
    else if osPersistent && os.error == LpkMissing then Err(LpkMissing)
    else match headless
      case Err(e) => Err(e)
      case Ok(Some(key)) => Ok((key, Headless))
      case Ok(None) => Err(NoSource)
  }

  // ----- Resolving the key in the OS keyring

  /** Base64 of a key, and the reader, which trims. */
  datatype KeyText = KeyText(encode: Key -> string, decode: string -> Option<Bytes>) {
    ghost predicate Lawful() {
      forall k :: decode(encode(k)) == Some(k)
    }

    function DecodeKey(text: string): Result<Key, LpkError> {
      match decode(text)
      case None => Err(DecodeFailed)
      case Some(bytes) => if |bytes| == 32 then Ok(bytes) else Err(NotKeySized)
    }
  }

  /** What happens around one resolve: store failures, the marker write, and the random key drawn.
      A failing `set` may or may not have reached the store. */
  datatype Weather = Weather(getFails: bool, setFails: bool, setReached: bool, rereadFails: bool,
                             markerFails: bool, drawn: Key)

  /** The install's OS-keyring slot and minted marker. */
  datatype Slot = Slot(entry: Option<string>, marker: bool) {

    function WriteMarker(w: Weather): Slot {
      if w.markerFails then this else this.(marker := true)
    }

    /** `resolve_lpk` as a function of the slot. */
    function Resolve(t: KeyText, mode: LpkMode, w: Weather): (Slot, Result<Key, LpkError>) {
      if w.getFails then (this, Err(RetrievalFailed))
      else match entry
        case Some(text) =>
          (match t.DecodeKey(text)
           case Err(e) => (this, Err(e))
           case Ok(key) => (if marker then this else WriteMarker(w), Ok(key)))
        case None =>
          if mode == Open || (mode == Seal && marker) then (this, Err(LpkMissing))
          else if w.setFails then
            (if w.setReached then this.(entry := Some(t.encode(w.drawn))) else this, Err(PersistFailed))
          else
            var minted := this.(entry := Some(t.encode(w.drawn)));
            var key := if w.rereadFails then Ok(w.drawn) else t.DecodeKey(minted.entry.value);
            if key.Err? then (minted, key) else (minted.WriteMarker(w), key)
    }

    /** The stored key changes only where policy allows a mint, a present key is returned in every mode,
        and a returned key is the one left in the store, so the next process reads the same key. */
    lemma MintsOnlyWhenAllowed(t: KeyText, mode: LpkMode, w: Weather)
      requires t.Lawful()
      ensures var (after, r) := Resolve(t, mode, w);
        var mayMint := mode == Remint || (mode == Seal && !marker);
        && (after.entry != entry <==> !w.getFails && entry.None? && mayMint && (!w.setFails || w.setReached))
        && (r == Err(LpkMissing) <==> !w.getFails && entry.None? && !mayMint)
        && (entry.Some? && !w.getFails ==> r == t.DecodeKey(entry.value))
        && (r.Ok? ==> after.entry.Some? && t.DecodeKey(after.entry.value) == r)
        && (after.marker <==> marker || (r.Ok? && !w.markerFails))
    {
      assert t.DecodeKey(t.encode(w.drawn)) == Ok(w.drawn);
    }
  }

  /** The host's slot, written in place. */
  class Keyring {
    var entry: Option<string>
    var marker: bool

    function AsSlot(): Slot
      reads this
    {
      Slot(entry, marker)
    }

    constructor (slot: Slot)
      ensures AsSlot() == slot
    {
      entry, marker := slot.entry, slot.marker;
    }

    method WriteMintedMarker(w: Weather)
      modifies `marker
      ensures AsSlot() == old(AsSlot()).WriteMarker(w)
    {
      if !w.markerFails {
        marker := true;
      }
    }

    /** `resolve_lpk` */
    method ResolveLpk(t: KeyText, mode: LpkMode, w: Weather) returns (r: Result<Key, LpkError>)
      modifies this
      ensures (AsSlot(), r) == old(AsSlot()).Resolve(t, mode, w)
    {
      if w.getFails {
        return Err(RetrievalFailed);
      }
      if entry.Some? {
        var key :- t.DecodeKey(entry.value);
        if !marker {
          WriteMintedMarker(w);
        }
        return Ok(key);
      }
      if mode == Open || (mode == Seal && marker) {
        return Err(LpkMissing);
      }
      var key := w.drawn;
      if !w.setFails || w.setReached {
        entry := Some(t.encode(key));
      }
      if w.setFails {
        return Err(PersistFailed);
      }
      if !w.rereadFails {
        key :- t.DecodeKey(entry.value);
      }
      WriteMintedMarker(w);
      return Ok(key);
    }
  }

  /** A host: whether its keyring outlives a reboot, and what its headless configuration gives. */
  datatype Host = Host(persistent: bool, headless: Result<Option<Key>, LpkError>) {

    /** `resolve_host_lpk`: through `choose_lpk`; a keyring that is not persistent is never asked. */
    function Resolve(slot: Slot, t: KeyText, mode: LpkMode, w: Weather): (Slot, Result<Key, LpkError>) {
      var (slot', os) := if persistent then slot.Resolve(t, mode, w) else (slot, Err(NoSource));
      (slot', match ChooseLpk(persistent, os, headless) case Ok((key, _)) => Ok(key) case Err(e) => Err(e))
    }

    /** A key the keyring gives is returned as it is. A key the keyring reports missing is reported missing,
        whatever the headless configuration. The headless configuration answers exactly when the keyring is
        not used or failed in any other way. */
    lemma AnswersAre(slot: Slot, t: KeyText, mode: LpkMode, w: Weather)
      ensures var (after, r) := Resolve(slot, t, mode, w);
        var (kept, os) := slot.Resolve(t, mode, w);
        && after == (if persistent then kept else slot)
        && (persistent && os.Ok? ==> r == os)
        && (persistent && os == Err(LpkMissing) ==> r == Err(LpkMissing))
        && (!persistent || (os.Err? && os.error != LpkMissing) ==>
              r == match headless
                   case Err(e) => Err(e)
                   case Ok(Some(key)) => Ok(key)
                   case Ok(None) => Err(NoSource))
    {
      hide Slot.Resolve;
    }

    /** The key of a working headless configuration. */
    function Fallback(): Option<Key> {
      if headless.Ok? then headless.value else None
    }
  }

  /** One process: its key cache over the host's keyring. */
  class LpkProcess {
    const keyring: Keyring
    const host: Host
    var cache: Option<Key>

    constructor (keyring: Keyring, host: Host)
      ensures this.keyring == keyring && this.host == host && cache == None
    {
      this.keyring, this.host, cache := keyring, host, None;
    }

    method ResolveHostLpk(t: KeyText, mode: LpkMode, w: Weather) returns (r: Result<Key, LpkError>)
      modifies keyring
      ensures (keyring.AsSlot(), r) == host.Resolve(old(keyring.AsSlot()), t, mode, w)
    {
      var os := Err(NoSource);
      if host.persistent {
        os := keyring.ResolveLpk(t, mode, w);
      }
      match ChooseLpk(host.persistent, os, host.headless) {
        case Ok((key, _)) => r := Ok(key);
        case Err(e) => r := Err(e);
      }
    }

    /** `cached_lpk`: a cached key is returned without asking anyone. */
    method CachedLpk(t: KeyText, mode: LpkMode, w: Weather) returns (r: Result<Key, LpkError>)
      modifies this, keyring
      ensures old(cache).Some? ==>
        r == Ok(old(cache).value) && cache == old(cache) && keyring.AsSlot() == old(keyring.AsSlot())
      ensures old(cache).None? ==>
        && (keyring.AsSlot(), r) == host.Resolve(old(keyring.AsSlot()), t, mode, w)
        && cache == if r.Ok? then Some(r.value) else None
    {
      if cache.Some? {
        return Ok(cache.value);
      }
      var key :- ResolveHostLpk(t, mode, w);
      cache := Some(key);
      return Ok(key);
    }

    /** `remint_local_protection_key`: always asks, and replaces the cache. */
    method RemintLocalProtectionKey(t: KeyText, w: Weather) returns (r: Result<(), LpkError>)
      modifies this, keyring
      ensures var (slot, key) := host.Resolve(old(keyring.AsSlot()), t, Remint, w);
        && keyring.AsSlot() == slot
        && cache == (if key.Ok? then Some(key.value) else old(cache))
        && r == (if key.Ok? then Ok(()) else Err(key.error))
    {
      var key :- ResolveHostLpk(t, Remint, w);
      cache := Some(key);
      return Ok(());
    }
  }

  // ----- Sealing at rest

  const Magic: Bytes := [71, 67, 75, 87, 48, 48, 48, 49]  // "GCKW0001"
  const WrapNonceSize := 12

  datatype UnwrapError = NotWrapped | Truncated | AuthenticationFailed | KeyUnavailable(error: LpkError)

  /** `is_wrapped` */
  predicate IsWrapped(data: Bytes) {
    Magic <= data
  }

  /** `wrap_with_key`, with the nonce it drew. */
  function WrapWithKey(c: Cipher, plaintext: Bytes, key: Key, nonce: Bytes): Bytes {
    Magic + nonce + c.seal(key, nonce, [], plaintext)
  }

  /** `unwrap_with_key` */
  function UnwrapWithKey(c: Cipher, log: Log, data: Bytes, key: Key): Result<Bytes, UnwrapError> {
    if !IsWrapped(data) then Err(NotWrapped)
    else if |data| - |Magic| < WrapNonceSize then Err(Truncated)
    else
      var body := data[|Magic|..];
      match c.Open(log, key, body[..WrapNonceSize], [], body[WrapNonceSize..])
      case Some(plaintext) => Ok(plaintext)
      case None => Err(AuthenticationFailed)
  }

  /** `unwrap_at_rest`: data without the header is legacy plaintext and passes through untouched. */
  function UnwrapAtRest(c: Cipher, log: Log, data: Bytes, key: Result<Key, LpkError>): Result<Bytes, UnwrapError> {
    if !IsWrapped(data) then Ok(data)
    else match key
      case Err(e) => Err(KeyUnavailable(e))
      case Ok(k) => UnwrapWithKey(c, log, data, k)
  }

  /** Without the header `GCKW0001` data is legacy plaintext: it is returned as it is, whether or not there is
      a key, and is no sealed file. With it, it opens only as a sealing under the key, which it then is byte
      for byte. */
  lemma UnwrapIs(c: Cipher, log: Log, data: Bytes, key: Key, resolved: Result<Key, LpkError>)
    ensures var header := Utf8.Encode("GCKW0001");
      && (!(header <= data) ==>
            UnwrapAtRest(c, log, data, resolved) == Ok(data) && UnwrapWithKey(c, log, data, key) == Err(NotWrapped))
      && (header <= data ==>
            UnwrapAtRest(c, log, data, resolved) ==
              if resolved.Ok? then UnwrapWithKey(c, log, data, resolved.value) else Err(KeyUnavailable(resolved.error)))
      && (header <= data && |data| < 20 ==> UnwrapWithKey(c, log, data, key) == Err(Truncated))
    ensures var r := UnwrapWithKey(c, log, data, key);
      r.Ok? ==>
        && |data| >= 20 && Sealing(key, data[8..20], [], r.value) in log
        && data == WrapWithKey(c, r.value, key, data[8..20])
  {
    HeaderIs();
    if Magic <= data && |data| >= 20 {
      var body := data[|Magic|..];
      assert body[..WrapNonceSize] == data[8..20] && body[WrapNonceSize..] == data[20..];
      assert data == Magic + data[8..20] + data[20..];
    }
  }

  lemma HeaderIs()
    ensures Utf8.Encode("GCKW0001") == Magic
  {
    hide Utf8.Encode;
    Utf8.AsciiBytes("GCKW0001");
  }

  lemma WrapThenUnwrap(c: Cipher, log: Log, plaintext: Bytes, key: Key, nonce: Bytes)
    requires c.Lawful() && |nonce| == WrapNonceSize && Sealing(key, nonce, [], plaintext) in log
    ensures IsWrapped(WrapWithKey(c, plaintext, key, nonce))
    ensures UnwrapWithKey(c, log, WrapWithKey(c, plaintext, key, nonce), key) == Ok(plaintext)
  {
    var ct := c.seal(key, nonce, [], plaintext);
    var data := Magic + nonce + ct;
    assert data[|Magic|..] == nonce + ct;
    assert (nonce + ct)[..WrapNonceSize] == nonce && (nonce + ct)[WrapNonceSize..] == ct;
    c.OpenOfSealed(log, key, nonce, [], plaintext);
  }

  /** Under another key a sealed file opens only if that key sealed something with the same nonce. */
  lemma WrongKeyRefused(c: Cipher, log: Log, plaintext: Bytes, key: Key, nonce: Bytes, other: Key)
    requires c.Lawful() && |nonce| == WrapNonceSize
    requires forall s :: s in log && s.nonce == nonce ==> s == Sealing(key, nonce, [], plaintext)
    requires other != key
    ensures UnwrapWithKey(c, log, WrapWithKey(c, plaintext, key, nonce), other) == Err(AuthenticationFailed)
  {
    var ct := c.seal(key, nonce, [], plaintext);
    var data := Magic + nonce + ct;
    assert data[|Magic|..] == nonce + ct;
    assert (nonce + ct)[..WrapNonceSize] == nonce && (nonce + ct)[WrapNonceSize..] == ct;
  }
}
