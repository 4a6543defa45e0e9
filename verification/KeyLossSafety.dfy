/** Runs of the Local Protection Key policy over many processes, restarts, seals, opens and losses of
    the stored key (passkey-core/src/keywrap.rs). */
module KeyLossSafety {
  import opened Words
  import opened Wrappers
  import opened Aead
  import opened Keywrap

  /** A file sealed at rest, and what it holds. */
  datatype SealedFile = SealedFile(data: Bytes, plaintext: Bytes)

  /** The install's slot, each process's cache, every sealed file, and the cipher's log. */
  datatype World = World(slot: Slot, caches: map<nat, Key>, files: seq<SealedFile>, log: Log)

  datatype Event =
    | SealFile(pid: nat, plaintext: Bytes, nonce: Bytes, weather: Weather)
    | OpenFile(pid: nat, file: nat, weather: Weather)
    | RemintKey(pid: nat, weather: Weather)
    | WipeStore
    | Restart(pid: nat)

  /** The key an event resolved, and what an open returned. */
  datatype Output = Output(key: Option<Key>, read: Option<Result<Bytes, UnwrapError>>)

  const Silent := Output(None, None)

  /** All the keys a run resolved are the same key. */
  predicate OneKey(outputs: seq<Output>) {
    forall j, k :: 0 <= j < |outputs| && 0 <= k < |outputs| ==>
      outputs[j].key.Some? && outputs[k].key.Some? ==> outputs[j].key == outputs[k].key
  }

  datatype Config = Config(cipher: Cipher, text: KeyText, host: Host) {

    /** `cached_lpk`, on values: the new world, and the key or the refusal. */
    function Cached(w: World, pid: nat, mode: LpkMode, weather: Weather): (World, Result<Key, LpkError>) {
      if pid in w.caches then (w, Ok(w.caches[pid]))
      else
        var (slot, key) := host.Resolve(w.slot, text, mode, weather);
        (w.(slot := slot, caches := if key.Ok? then w.caches[pid := key.value] else w.caches), key)
    }

    function Step(w: World, e: Event): (World, Output) {
      match e
      case SealFile(pid, plaintext, nonce, weather) =>
        (var (w', key) := Cached(w, pid, Seal, weather);
         match key
         case Err(_) => (w', Silent)
         case Ok(k) =>
           (w'.(files := w'.files + [SealedFile(WrapWithKey(cipher, plaintext, k, nonce), plaintext)],
                log := w'.log + [Sealing(k, nonce, [], plaintext)]),
            Output(Some(k), None)))
      case OpenFile(pid, i, weather) =>
        (if i >= |w.files| then (w, Silent)
         else
           var (w', key) := Cached(w, pid, Open, weather);
           (w', Output(if key.Ok? then Some(key.value) else None,
                       Some(UnwrapAtRest(cipher, w'.log, w.files[i].data, key)))))
      case RemintKey(pid, weather) =>
        (var (slot, key) := host.Resolve(w.slot, text, Remint, weather);
         (w.(slot := slot, caches := if key.Ok? then w.caches[pid := key.value] else w.caches),
          Output(if key.Ok? then Some(key.value) else None, None)))
      case WipeStore => (w.(slot := w.slot.(entry := None)), Silent)
      case Restart(pid) => (w.(caches := w.caches - {pid}), Silent)
    }

    /** What each event of a run put out. */
    function Run(w: World, events: seq<Event>): seq<Output>
      decreases |events|
    {
      if events == [] then []
      else var (w', out) := Step(w, events[0]); [out] + Run(w', events[1..])
    }

    // ----- Safety

    ghost predicate Lawful() {
      cipher.Lawful() && text.Lawful()
    }

    /** The keyring slot holds, and can come to hold, no readable key but `key`. */
    predicate OnlyGives(slot: Slot, key: Key) {
      && slot.marker
      && (slot.entry.Some? ==>
            var stored := text.DecodeKey(slot.entry.value);
            stored.Err? || stored == Ok(key))
    }

    /** The keyring and the headless secret cannot both supply keys that differ: the host uses only one of
        them, no headless key is configured, or the keyring can supply no other key than that one. */
    predicate OneSource(slot: Slot) {
      !host.persistent || host.Fallback().None? || OnlyGives(slot, host.Fallback().value)
    }

    /** From here on every resolve that succeeds returns `key`, and one that fails found the key missing
        or the store failing. */
    predicate Gives(slot: Slot, key: Key) {
      if !host.persistent then host.Fallback() == Some(key)
      else
        && slot.marker
        && (host.Fallback().None? || host.Fallback() == Some(key))
        && (slot.entry.Some? ==>
              var stored := text.DecodeKey(slot.entry.value);
              stored == Ok(key) || (stored.Err? && host.Fallback().Some?))
    }

    /** No deliberate re-mint, and markers get written. */
    ghost predicate Ordinary(e: Event) {
      match e
      case SealFile(_, _, nonce, weather) => |nonce| == WrapNonceSize && !weather.markerFails
      case OpenFile(_, _, weather) => !weather.markerFails
      case RemintKey(_, _) => false
      case WipeStore => true
      case Restart(_) => true
    }

    ghost predicate SealedUnder(w: World, f: SealedFile, key: Key) {
      exists nonce :: |nonce| == WrapNonceSize && f.data == WrapWithKey(cipher, f.plaintext, key, nonce)
        && Sealing(key, nonce, [], f.plaintext) in w.log
    }

    /** `used` is the one key any resolve has returned so far, if any has. */
    ghost predicate Safe(w: World, used: Option<Key>) {
      match used
      case None => w.caches == map[] && w.files == [] && OneSource(w.slot)
      case Some(key) =>
        && Gives(w.slot, key)
        && (forall pid :: pid in w.caches ==> w.caches[pid] == key)
        && (forall i :: 0 <= i < |w.files| ==> SealedUnder(w, w.files[i], key))
    }

    /** An open returns the file's plaintext or says the key is unavailable. With a store that answers,
        the only refusal is LPK_MISSING; authentication never fails. */
    predicate OpenedWell(w: World, e: Event, out: Output) {
      e.OpenFile? && e.file < |w.files| ==>
        match out.read
        case Some(Ok(plaintext)) => plaintext == w.files[e.file].plaintext
        case Some(Err(KeyUnavailable(err))) => e.weather.getFails || err == LpkMissing
        case _ => false
    }

    lemma CachedIsSafe(w: World, used: Option<Key>, pid: nat, mode: LpkMode, weather: Weather)
      requires Lawful() && Safe(w, used) && mode != Remint && !weather.markerFails
      ensures var (w', key) := Cached(w, pid, mode, weather);
        && w'.files == w.files && w'.log == w.log
        && (key.Ok? ==> (used.Some? ==> key.value == used.value) && Safe(w', Some(key.value)))
        && (key.Err? ==> Safe(w', used) && (used.Some? ==> weather.getFails || key.error == LpkMissing))
    {
      hide WrapWithKey;
      var (w', key) := Cached(w, pid, mode, weather);
      assert forall i :: 0 <= i < |w.files| && used.Some? ==> SealedUnder(w', w.files[i], used.value) by {
        forall i | 0 <= i < |w.files| && used.Some?
          ensures SealedUnder(w', w.files[i], used.value)
        {
          assert SealedUnder(w, w.files[i], used.value);
        }
      }
    }

    lemma StepIsSafe(w: World, used: Option<Key>, e: Event)
      requires Lawful() && Safe(w, used) && Ordinary(e)
      ensures var (w', out) := Step(w, e);
        && (used.Some? && out.key.Some? ==> out.key == used)
        && Safe(w', if used.Some? then used else out.key)
        && OpenedWell(w, e, out)
    {
      match e
      case SealFile(pid, plaintext, nonce, weather) =>
        CachedIsSafe(w, used, pid, Seal, weather);
        SealKeepsSafe(w, used, pid, plaintext, nonce, weather);
      case OpenFile(pid, i, weather) =>
        CachedIsSafe(w, used, pid, Open, weather);
        if i < |w.files| {
          OpenReturnsPlaintext(w, used, pid, i, weather);
        }
      case WipeStore =>
        FilesStaySealed(w, w.(slot := w.slot.(entry := None)), used);
      case Restart(pid) =>
        FilesStaySealed(w, w.(caches := w.caches - {pid}), used);
    }

    lemma FilesStaySealed(w: World, w': World, used: Option<Key>)
      requires Safe(w, used) && w'.files == w.files && w.log <= w'.log
      ensures used.Some? ==> forall i :: 0 <= i < |w.files| ==> SealedUnder(w', w.files[i], used.value)
    {
      hide WrapWithKey;
      forall i | 0 <= i < |w.files| && used.Some?
        ensures SealedUnder(w', w.files[i], used.value)
      {
        assert SealedUnder(w, w.files[i], used.value);
        var nonce :| |nonce| == WrapNonceSize
          && w.files[i].data == WrapWithKey(cipher, w.files[i].plaintext, used.value, nonce)
          && Sealing(used.value, nonce, [], w.files[i].plaintext) in w.log;
        assert Sealing(used.value, nonce, [], w.files[i].plaintext) in w'.log;
      }
    }

    lemma SealKeepsSafe(w: World, used: Option<Key>, pid: nat, plaintext: Bytes, nonce: Bytes, weather: Weather)
      requires Lawful() && |nonce| == WrapNonceSize
      requires var (w', key) := Cached(w, pid, Seal, weather); key.Ok? ==> Safe(w', Some(key.value))
      ensures var (w', out) := Step(w, SealFile(pid, plaintext, nonce, weather));
        out.key.Some? ==> Safe(w', out.key)
    {
      hide WrapWithKey, Cached;
      var (w1, key) := Cached(w, pid, Seal, weather);
      if key.Ok? {
        var file := SealedFile(WrapWithKey(cipher, plaintext, key.value, nonce), plaintext);
        var log := w1.log + [Sealing(key.value, nonce, [], plaintext)];
        FilesStaySealed(w1, w1.(log := log), Some(key.value));
        var w2 := w1.(files := w1.files + [file], log := log);
        assert SealedUnder(w2, file, key.value);
        forall i | 0 <= i < |w2.files|
          ensures SealedUnder(w2, w2.files[i], key.value)
        {
          if i < |w1.files| {
            assert SealedUnder(w1.(log := log), w1.files[i], key.value);
          }
        }
      }
    }

    lemma OpenReturnsPlaintext(w: World, used: Option<Key>, pid: nat, i: nat, weather: Weather)
      requires Lawful() && Safe(w, used) && !weather.markerFails && i < |w.files|
      ensures OpenedWell(w, OpenFile(pid, i, weather), Step(w, OpenFile(pid, i, weather)).1)
    {
      CachedIsSafe(w, used, pid, Open, weather);
      hide WrapWithKey, UnwrapWithKey, IsWrapped, Cached;
      var f, key := w.files[i], used.value;
      assert SealedUnder(w, f, key);
      var nonce :| |nonce| == WrapNonceSize && f.data == WrapWithKey(cipher, f.plaintext, key, nonce)
        && Sealing(key, nonce, [], f.plaintext) in w.log;
      WrapThenUnwrap(cipher, w.log, f.plaintext, key, nonce);
    }

    /** The world after a run. */
    function After(w: World, events: seq<Event>): World
      decreases |events|
    {
      if events == [] then w else After(Step(w, events[0]).0, events[1..])
    }

    lemma {:induction false} RunStaysSafe(w: World, used: Option<Key>, events: seq<Event>) returns (last: Option<Key>)
      requires Lawful() && Safe(w, used) && forall e :: e in events ==> Ordinary(e)
      ensures used.Some? ==> last == used
      ensures Safe(After(w, events), last)
      ensures forall k :: 0 <= k < |Run(w, events)| && Run(w, events)[k].key.Some? ==> Run(w, events)[k].key == last
      decreases |events|
    {
      last := used;
      if events != [] {
        assert events[0] in events;
        StepIsSafe(w, used, events[0]);
        hide Step, Safe, Ordinary;
        var (w', out) := Step(w, events[0]);
        last := RunStaysSafe(w', if used.Some? then used else out.key, events[1..]);
      }
    }

    ghost predicate AllOrdinary(events: seq<Event>) {
      forall e :: e in events ==> Ordinary(e)
    }

    /** In any run of seals, opens, restarts and store wipes, by any number of processes and under any
        store failures, that starts from fresh processes on a slot with one source, without a re-mint,
        and with a marker that is written when asked and never lost: all successful resolves return one
        key, and every open of an earlier seal returns its plaintext or reports the key unavailable.
        It never fails authentication. */
    lemma OneKeyAndNoFailedOpens(slot: Slot, log: Log, events: seq<Event>, next: Event)
      requires Lawful() && OneSource(slot) && AllOrdinary(events) && Ordinary(next)
      ensures var start := World(slot, map[], [], log);
        && OneKey(Run(start, events))
        && OpenedWell(After(start, events), next, Step(After(start, events), next).1)
    {
      hide Step, Run, After, OpenedWell, OneSource;
      var start := World(slot, map[], [], log);
      var last := RunStaysSafe(start, None, events);
      StepIsSafe(After(start, events), last, next);
    }

    /** Whatever is stored, an install keeps to one key in all such runs exactly when it has one source. */
    lemma OneKeyIffOneSource(slot: Slot, log: Log)
      requires Lawful()
      ensures var start := World(slot, map[], [], log);
        (forall events :: AllOrdinary(events) ==> OneKey(Run(start, events))) <==> OneSource(slot)
    {
      hide Run, OneKey, OneSource, AllOrdinary, Lawful;
      if OneSource(slot) {
        forall events | AllOrdinary(events)
          ensures OneKey(Run(World(slot, map[], [], log), events))
        {
          OneKeyAndNoFailedOpens(slot, log, events, WipeStore) by {
            hide Step, After;
          }
        }
      } else {
        var events := TwoSourcesSplit(slot, log);
      }
    }

    /** With two sources, a run mints or reads one key, restarts, and seals under the headless key the
        first time the keyring cannot be read. */
    lemma TwoSourcesSplit(slot: Slot, log: Log) returns (events: seq<Event>)
      requires Lawful() && !OneSource(slot)
      ensures AllOrdinary(events) && !OneKey(Run(World(slot, map[], [], log), events))
    {
      hide WrapWithKey;
      var h := host.Fallback().value;
      var zeros: Key, ones: Key := seq(32, _ => 0), seq(32, _ => 1);
      assert zeros[0] != ones[0];
      var k := if slot.marker then text.DecodeKey(slot.entry.value).value else if h == zeros then ones else zeros;
      var nonce := seq(WrapNonceSize, _ => 0);
      var calm := Weather(false, false, false, false, false, k);
      var e0 := if slot.marker then Restart(0) else WipeStore;
      var e1, e3 := SealFile(0, [], nonce, calm), SealFile(0, [], nonce, calm.(getFails := true));
      events := [e0, e1, Restart(0), e3];
      var w0 := World(slot, map[], [], log);
      var (w1, o0) := Step(w0, e0);
      assert text.DecodeKey(text.encode(k)) == Ok(k);
      var (w2, o1) := Step(w1, e1);
      assert o1.key == Some(k);
      var (w3, o2) := Step(w2, Restart(0));
      assert Step(w3, e3).1.key == Some(h);
      RunFour(w0, e0, e1, Restart(0), e3);
      var outputs := Run(w0, events);
      assert outputs[1] == o1 && outputs[3] == Step(w3, e3).1;
    }

    /** A key in the keyring is the only key a resolve can return exactly when no other headless key is
        configured: one failed read is enough to fall back. */
    lemma StoredKeyIsOnlyKeyIff(key: Key, marker: bool)
      requires text.Lawful()
      ensures var slot := Slot(Some(text.encode(key)), marker);
        (forall mode, weather ::
           var r := host.Resolve(slot, text, mode, weather).1;
           r.Ok? ==> r.value == key)
        <==> host.Fallback().None? || host.Fallback() == Some(key)
    {
      assert text.DecodeKey(text.encode(key)) == Ok(key);
      var slot := Slot(Some(text.encode(key)), marker);
      var failing := Weather(true, false, false, false, false, key);
      assert host.Fallback().Some? ==> host.Resolve(slot, text, Seal, failing).1 == Ok(host.Fallback().value);
    }

    /** With a key at hand, opens succeed: after such a run an open returns the file's plaintext whenever it
        resolves a key, and it does if its process has one, if the keyring is not used, or if the keyring
        holds an entry and can be read. */
    lemma KeyAtHandOpens(slot: Slot, log: Log, events: seq<Event>, pid: nat, i: nat, weather: Weather)
      requires Lawful() && OneSource(slot) && AllOrdinary(events) && !weather.markerFails
      ensures var w := After(World(slot, map[], [], log), events);
        i < |w.files| ==>
          var out := Step(w, OpenFile(pid, i, weather)).1;
          && (out.key.Some? ==> out.read == Some(Ok(w.files[i].plaintext)))
          && (pid in w.caches || !host.persistent || (w.slot.entry.Some? && !weather.getFails) ==> out.key.Some?)
    {
      hide After, OneSource;
      var start := World(slot, map[], [], log);
      var last := RunStaysSafe(start, None, events);
      var w := After(start, events);
      if i < |w.files| {
        CachedIsSafe(w, last, pid, Open, weather);
        OpenReturnsPlaintext(w, last, pid, i, weather);
        KeyAtHand(w, last, pid, weather);
      }
    }

    lemma KeyAtHand(w: World, used: Option<Key>, pid: nat, weather: Weather)
      requires Safe(w, used) && used.Some?
      ensures pid in w.caches || !host.persistent || (w.slot.entry.Some? && !weather.getFails) ==>
        Cached(w, pid, Open, weather).1.Ok?
    {
      hide SealedUnder;
    }

    // ----- A lost key stays lost

    /** No re-mint, and a store that answers. */
    predicate Answered(e: Event) {
      match e
      case SealFile(_, _, _, weather) => !weather.getFails
      case OpenFile(_, _, weather) => !weather.getFails
      case RemintKey(_, _) => false
      case WipeStore => true
      case Restart(_) => true
    }

    /** The key is gone from the keyring, the marker says there was one, and no process has it. */
    predicate Lost(w: World) {
      host.persistent && w.slot == Slot(None, true) && w.caches == map[]
    }

    lemma LostStep(w: World, e: Event)
      requires Lost(w) && Answered(e)
      ensures Step(w, e).0 == w && Step(w, e).1.key == None
      ensures e.OpenFile? && e.file < |w.files| && IsWrapped(w.files[e.file].data) ==>
        Step(w, e).1.read == Some(Err(KeyUnavailable(LpkMissing)))
    {
      hide UnwrapWithKey, WrapWithKey, IsWrapped;
    }

    /** After a wipe, while the store answers and nobody re-mints, no seal and no open resolves a key,
        whatever headless secret is configured; sealed files are reported as LPK_MISSING. */
    lemma {:induction false} LostKeyStaysLost(w: World, events: seq<Event>, k: nat)
      requires Lost(w) && k < |events| && forall e :: e in events ==> Answered(e)
      ensures After(w, events) == w && |Run(w, events)| == |events| && Run(w, events)[k].key == None
      ensures events[k].OpenFile? && events[k].file < |w.files| && IsWrapped(w.files[events[k].file].data) ==>
        Run(w, events)[k].read == Some(Err(KeyUnavailable(LpkMissing)))
      decreases |events|
    {
      hide Step, Lost, Answered, IsWrapped;
      var rest := events[1..];
      assert events[0] in events;
      LostStep(w, events[0]);
      if rest == [] {
        assert Run(w, events) == [Step(w, events[0]).1] + Run(w, []);
        RunOfNothing(w);
        assert After(w, []) == w;
      } else {
        LostKeyStaysLost(w, rest, if k > 0 then k - 1 else 0);
        assert Run(w, events) == [Step(w, events[0]).1] + Run(w, rest);
      }
    }

    /** A deliberate re-mint ends it: the new key is returned, and left for every other process. */
    lemma RemintEndsIt(w: World, pid: nat, weather: Weather)
      requires Lost(w) && text.Lawful() && !weather.getFails && !weather.setFails && !weather.rereadFails
      ensures var (w', out) := Step(w, RemintKey(pid, weather));
        && out.key == Some(weather.drawn) && w'.slot.marker
        && w'.slot.entry.Some? && text.DecodeKey(w'.slot.entry.value) == Ok(weather.drawn)
    {
      assert text.DecodeKey(text.encode(weather.drawn)) == Ok(weather.drawn);
    }

    /** Opening never changes the stored key. */
    lemma OpenKeepsStoredKey(w: World, pid: nat, file: nat, weather: Weather)
      ensures Step(w, OpenFile(pid, file, weather)).0.slot.entry == w.slot.entry
    {
      hide UnwrapAtRest;
    }

    // ----- Each hypothesis is needed

    /** If the marker write fails, a wiped key is silently replaced: the second seal uses another key. */
    lemma LostMarkerMintsAgain(plaintext: Bytes, nonce: Bytes, a: Key, b: Key)
      requires Lawful() && host.persistent && a != b
      ensures var bad := Weather(false, false, true, false, true, a);
        Run(World(Slot(None, false), map[], [], []),
            [SealFile(0, plaintext, nonce, bad), WipeStore, Restart(0),
             SealFile(0, plaintext, nonce, bad.(drawn := b))])
        == [Output(Some(a), None), Silent, Silent, Output(Some(b), None)]
    {
      hide WrapWithKey;
      var bad := Weather(false, false, true, false, true, a);
      var e0, e3 := SealFile(0, plaintext, nonce, bad), SealFile(0, plaintext, nonce, bad.(drawn := b));
      var w0 := World(Slot(None, false), map[], [], []);
      assert text.DecodeKey(text.encode(a)) == Ok(a) && text.DecodeKey(text.encode(b)) == Ok(b);
      var w1 := Step(w0, e0).0;
      assert w1.slot == Slot(Some(text.encode(a)), false) && w1.caches == map[0 := a];
      var w3 := Step(Step(w1, WipeStore).0, Restart(0)).0;
      assert w3.slot == Slot(None, false) && w3.caches == map[];
      RunFour(w0, e0, WipeStore, Restart(0), e3);
    }

    lemma RunCons(w: World, e: Event, rest: seq<Event>)
      ensures Run(w, [e] + rest) == [Step(w, e).1] + Run(Step(w, e).0, rest)
    {
      assert ([e] + rest)[1..] == rest;
    }

    lemma RunFour(w: World, e0: Event, e1: Event, e2: Event, e3: Event)
      ensures var (w1, o0) := Step(w, e0);
        var (w2, o1) := Step(w1, e1);
        var (w3, o2) := Step(w2, e2);
        Run(w, [e0, e1, e2, e3]) == [o0, o1, o2, Step(w3, e3).1]
    {
      var (w1, o0) := Step(w, e0);
      var (w2, o1) := Step(w1, e1);
      var (w3, o2) := Step(w2, e2);
      RunCons(w, e0, [e1, e2, e3]);
      RunCons(w1, e1, [e2, e3]);
      RunCons(w2, e2, [e3]);
      RunCons(w3, e3, []);
      hide Step, Run;
      assert [e0, e1, e2, e3] == [e0] + [e1, e2, e3] && [e1, e2, e3] == [e1] + [e2, e3];
      assert [e2, e3] == [e2] + [e3] && [e3] == [e3] + [];
      assert Run(w, [e0, e1, e2, e3]) == [o0] + ([o1] + ([o2] + ([Step(w3, e3).1] + []))) by {
        RunOfNothing(Step(w3, e3).0);
      }
    }

    lemma RunOfNothing(w: World)
      ensures Run(w, []) == []
    {
    }
  }

  /** An install as it runs: one keyring object, a process object for each live process, the sealed files,
      and the cipher's log. */
  class Install {
    const config: Config
    const keyring: Keyring
    var processes: map<nat, LpkProcess>
    var files: seq<SealedFile>
    var log: Log

    ghost predicate Valid()
      reads this, processes.Values
    {
      && (forall pid :: pid in processes ==>
            processes[pid].keyring == keyring && processes[pid].host == config.host)
      && (forall p, q :: p in processes && q in processes && p != q ==> processes[p] != processes[q])
    }

    ghost function Caches(): map<nat, Key>
      reads `processes, processes.Values
    {
      map pid | pid in processes && processes[pid].cache.Some? :: processes[pid].cache.value
    }

    ghost function AsWorld(): World
      reads this, keyring, processes.Values
    {
      World(keyring.AsSlot(), Caches(), files, log)
    }

    constructor (config: Config, slot: Slot, log: Log)
      ensures Valid() && this.config == config && fresh(keyring) && processes == map[]
      ensures AsWorld() == World(slot, map[], [], log)
    {
      this.config, processes, files, this.log := config, map[], [], log;
      keyring := new Keyring(slot);
    }

    /** The process object behind a pid, started if need be. */
    method Process(pid: nat) returns (p: LpkProcess)
      requires Valid()
      modifies `processes
      ensures Valid() && AsWorld() == old(AsWorld())
      ensures pid in processes && processes[pid] == p && fresh(processes.Values - old(processes.Values))
    {
      if pid in processes {
        return processes[pid];
      }
      p := new LpkProcess(keyring, config.host);
      processes := processes[pid := p];
    }

    /** When a single process's cache changes, so does its entry alone. */
    twostate lemma OneCacheChanges(pid: nat)
      requires pid in processes && processes == old(processes)
      requires forall p :: p in processes && p != pid ==> processes[p].cache == old(processes[p].cache)
      ensures Caches() == match processes[pid].cache
                          case Some(key) => old(Caches())[pid := key]
                          case None => old(Caches()) - {pid}
    {
    }

    /** A resolve through the process's cache. */
    method Cached(pid: nat, mode: LpkMode, weather: Weather) returns (r: Result<Key, LpkError>)
      requires Valid()
      modifies `processes, keyring, processes.Values
      ensures Valid() && fresh(processes.Values - old(processes.Values))
      ensures (AsWorld(), r) == config.Cached(old(AsWorld()), pid, mode, weather)
    {
      hide Host.Resolve;
      ghost var before := Caches();
      var p := Process(pid);
      label Started:
      r := p.CachedLpk(config.text, mode, weather);
      OneCacheChanges@Started(pid);
      hide Install.Caches;
      assert pid in before ==> before[pid := before[pid]] == before;
      assert pid !in before ==> before - {pid} == before;
    }

    /** A re-mint, past the process's cache. */
    method Remint(pid: nat, weather: Weather) returns (key: Option<Key>)
      requires Valid()
      modifies `processes, keyring, processes.Values
      ensures Valid() && fresh(processes.Values - old(processes.Values))
      ensures (AsWorld(), Output(key, None)) == config.Step(old(AsWorld()), RemintKey(pid, weather))
    {
      hide Host.Resolve;
      ghost var before := Caches();
      var p := Process(pid);
      label Started:
      var done := p.RemintLocalProtectionKey(config.text, weather);
      key := if done.Ok? then p.cache else None;
      OneCacheChanges@Started(pid);
      hide Install.Caches;
      assert pid in before ==> before[pid := before[pid]] == before;
      assert pid !in before ==> before - {pid} == before;
    }

    /** One event, carried out by the objects, is one step of the model. */
    method Do(e: Event) returns (out: Output)
      requires Valid()
      modifies this, keyring, processes.Values
      ensures Valid() && fresh(processes.Values - old(processes.Values))
      ensures (AsWorld(), out) == config.Step(old(AsWorld()), e)
    {
      hide WrapWithKey, UnwrapAtRest, Config.Cached;
      ghost var before := Caches();
      out := Silent;
      match e {
        case SealFile(pid, plaintext, nonce, weather) =>
          var key := Cached(pid, Seal, weather);
          if key.Ok? {
            files := files + [SealedFile(WrapWithKey(config.cipher, plaintext, key.value, nonce), plaintext)];
            log := log + [Sealing(key.value, nonce, [], plaintext)];
            out := Output(Some(key.value), None);
          }
        case OpenFile(pid, i, weather) =>
          if i < |files| {
            var data := files[i].data;
            var key := Cached(pid, Open, weather);
            out := Output(if key.Ok? then Some(key.value) else None,
                          Some(UnwrapAtRest(config.cipher, log, data, key)));
          }
        case RemintKey(pid, weather) =>
          var key := Remint(pid, weather);
          out := Output(key, None);
        case WipeStore =>
          keyring.entry := None;
          assert Caches() == before;
        case Restart(pid) =>
          processes := processes - {pid};
          assert Caches() == before - {pid};
      }
    }
  }

  /** Any list of events on a fresh install of objects puts out what the model's run says. */
  method RunInstall(config: Config, slot: Slot, log: Log, events: seq<Event>) returns (outputs: seq<Output>)
    ensures outputs == config.Run(World(slot, map[], [], log), events)
  {
    hide Config.Step;
    var install := new Install(config, slot, log);
    outputs := [];
    for i := 0 to |events|
      invariant install.Valid() && install.config == config
      invariant fresh(install) && fresh(install.keyring) && fresh(install.processes.Values)
      invariant outputs + config.Run(install.AsWorld(), events[i..]) == config.Run(World(slot, map[], [], log), events)
    {
      assert events[i..][0] == events[i] && events[i..][1..] == events[i + 1..];
      var out := install.Do(events[i]);
      outputs := outputs + [out];
    }
    assert events[|events|..] == [];
  }
}
