/** Processes racing to mint the Local Protection Key on a fresh machine: `resolve_lpk` in sealing mode
    split at its store and marker accesses, any of which may fail, interleaved in any order
    (passkey-core/src/keywrap.rs). */
module MintRace {
  import opened Wrappers
  import Keywrap

  type Key = Keywrap.Key

  /** Where a process stands in `resolve_lpk`. */
  datatype Pc =
    | Start
    | SawNone              // the keyring had no entry
    | MayMint              // and the marker was absent
    | DidSet               // its own key was written
    | Adopted(key: Key)    // it returned this key
    | Missing              // it reported LPK_MISSING
    | Failed               // a store access failed

  /** The accesses. A `set` that fails may still have reached the store. */
  datatype Action =
    | Get(pid: nat, fails: bool)
    | Check(pid: nat)
    | Set(pid: nat, fails: bool, reached: bool)
    | Reread(pid: nat, fails: bool)
    | Mark(pid: nat)

  /** The shared slot, each process's place, and the key each would mint. */
  datatype Race = Race(entry: Option<Key>, marker: bool, procs: seq<Pc>, mints: seq<Key>) {

    ghost predicate WellFormed() {
      |procs| == |mints| && forall i, j :: 0 <= i < j < |mints| ==> mints[i] != mints[j]
    }

    predicate Enabled(a: Action) {
      a.pid < |procs| && a.pid < |mints| &&
      match a
      case Get(i, _) => procs[i] == Start
      case Check(i) => procs[i] == SawNone
      case Set(i, _, _) => procs[i] == MayMint
      case Reread(i, _) => procs[i] == DidSet
      case Mark(i) => procs[i].Adopted?
    }

    /** One access by one process; an action that is not enabled does nothing. */
    function Step(a: Action): Race {
      if !Enabled(a) then this
      else match a
        case Get(i, fails) =>
          this.(procs := procs[i := if fails then Failed else if entry.Some? then Adopted(entry.value) else SawNone])
        case Check(i) => this.(procs := procs[i := if marker then Missing else MayMint])
        case Set(i, fails, reached) =>
          this.(entry := if !fails || reached then Some(mints[i]) else entry,
                procs := procs[i := if fails then Failed else DidSet])
        case Reread(i, fails) =>
          this.(procs := procs[i := Adopted(if !fails && entry.Some? then entry.value else mints[i])])
        case Mark(i) => this.(marker := true)
    }

    /** The action returns the stored key to its process. */
    predicate Reads(a: Action) {
      Enabled(a) && ((a.Get? && !a.fails && entry.Some?) || (a.Reread? && !a.fails))
    }

    /** The action's re-read fails, so its process returns the key it minted. */
    predicate TakesOwn(a: Action) {
      Enabled(a) && a.Reread? && a.fails
    }

    predicate Adopts(a: Action) {
      Reads(a) || TakesOwn(a)
    }

    /** The action puts its process's key in the store, and its process will go on to return a key. */
    predicate Writes(a: Action) {
      Enabled(a) && a.Set? && !a.fails
    }

    /** The action puts its process's key in the store. */
    predicate Reaches(a: Action) {
      Enabled(a) && a.Set? && (!a.fails || a.reached)
    }

    /** Every process that wrote has re-read. */
    predicate Settled() {
      forall i :: 0 <= i < |procs| ==> procs[i] != DidSet
    }

    predicate AllAgree() {
      forall i, j :: 0 <= i < |procs| && 0 <= j < |procs| ==>
        procs[i].Adopted? && procs[j].Adopted? ==> procs[i].key == procs[j].key
    }
  }

  function RunFrom(s: Race, trace: seq<Action>): Race
    decreases |trace|
  {
    if trace == [] then s else RunFrom(s.Step(trace[0]), trace[1..])
  }

  /** A fresh machine with `|mints|` processes about to seal. */
  function Fresh(mints: seq<Key>): Race {
    Race(None, false, seq(|mints|, _ => Start), mints)
  }

  // ----- The schedule condition

  /** What a schedule may still do once process `w`'s key has been returned: no further `set` succeeds; the
      stored key is returned only while `w`'s is the last that reached the store, which `intact` records;
      and no other process's re-read fails. */
  predicate Keeps(s: Race, trace: seq<Action>, w: nat, intact: bool)
    decreases |trace|
  {
    trace != [] ==>
      && !s.Writes(trace[0])
      && (s.Reads(trace[0]) ==> intact)
      && (s.TakesOwn(trace[0]) ==> trace[0].pid == w)
      && Keeps(s.Step(trace[0]), trace[1..], w, intact && !s.Reaches(trace[0]))
  }

  /** All keys returned have one source: the last process whose key reached the store before the first
      return, or the first to return if its re-read fails. `last` is the last process to reach the store. */
  predicate OneSource(s: Race, trace: seq<Action>, last: Option<nat>)
    decreases |trace|
  {
    trace != [] ==>
      if s.Reads(trace[0]) then last.Some? && Keeps(s.Step(trace[0]), trace[1..], last.value, true)
      else if s.TakesOwn(trace[0]) then
        Keeps(s.Step(trace[0]), trace[1..], trace[0].pid, last == Some(trace[0].pid))
      else OneSource(s.Step(trace[0]), trace[1..], if s.Reaches(trace[0]) then Some(trace[0].pid) else last)
  }

  predicate HasNotSet(pc: Pc) {
    pc == Start || pc == SawNone || pc == MayMint
  }

  /** Process `w` is past writing. */
  predicate Past(s: Race, w: nat) {
    w < |s.procs| && !HasNotSet(s.procs[w])
  }

  /** The stored key is that of the last process to reach the store. */
  ghost predicate Stored(s: Race, last: Option<nat>) {
    && s.WellFormed()
    && (last.Some? ==> Past(s, last.value) && s.entry == Some(s.mints[last.value]))
    && (last.None? ==> s.entry == None)
    && (forall i :: 0 <= i < |s.procs| && s.procs[i] == DidSet ==> last.Some?)
  }

  ghost predicate NobodyAdopted(s: Race) {
    forall i :: 0 <= i < |s.procs| ==> !s.procs[i].Adopted?
  }

  /** Process `w`'s key has been returned, and `intact` says whether it is still the stored one. */
  ghost predicate Returned(s: Race, w: nat, intact: bool) {
    && s.WellFormed() && Past(s, w) && s.entry.Some?
    && (intact <==> s.entry == Some(s.mints[w]))
  }

  lemma StoredStep(s: Race, last: Option<nat>, a: Action)
    requires Stored(s, last)
    ensures Stored(s.Step(a), if s.Reaches(a) then Some(a.pid) else last)
    ensures s.Reads(a) ==> last.Some?
  {
  }

  lemma ReturnedStep(s: Race, w: nat, intact: bool, a: Action)
    requires Returned(s, w, intact)
    ensures Returned(s.Step(a), w, intact && !s.Reaches(a))
    ensures s.Step(a).mints == s.mints
  {
  }

  // ----- It suffices

  lemma {:induction false} KeepsAgrees(s: Race, trace: seq<Action>, w: nat, intact: bool)
    requires Returned(s, w, intact) && Keeps(s, trace, w, intact)
    requires forall i :: 0 <= i < |s.procs| && s.procs[i].Adopted? ==> s.procs[i].key == s.mints[w]
    ensures RunFrom(s, trace).AllAgree()
    decreases |trace|
  {
    if trace != [] {
      var s', intact' := s.Step(trace[0]), intact && !s.Reaches(trace[0]);
      ReturnedStep(s, w, intact, trace[0]);
      KeepsAgrees(s', trace[1..], w, intact');
    }
  }

  lemma {:induction false} OneSourceAgrees(s: Race, trace: seq<Action>, last: Option<nat>)
    requires Stored(s, last) && NobodyAdopted(s) && OneSource(s, trace, last)
    ensures RunFrom(s, trace).AllAgree()
    decreases |trace|
  {
    if trace != [] {
      var a := trace[0];
      var s' := s.Step(a);
      StoredStep(s, last, a);
      if s.Reads(a) {
        KeepsAgrees(s', trace[1..], last.value, true);
      } else if s.TakesOwn(a) {
        KeepsAgrees(s', trace[1..], a.pid, last == Some(a.pid));
      } else {
        OneSourceAgrees(s', trace[1..], if s.Reaches(a) then Some(a.pid) else last);
      }
    }
  }

  // ----- And it is needed

  /** `key` can never be in the keyring again: it is not there, and nobody is left to write it. */
  ghost predicate Gone(s: Race, key: Key) {
    && s.entry.Some? && s.entry.value != key
    && forall i :: 0 <= i < |s.procs| && i < |s.mints| && HasNotSet(s.procs[i]) ==> s.mints[i] != key
  }

  /** A writer still to re-read, other than the one that minted it, will not return a key that is gone. */
  lemma {:induction false} WriterAdoptsAnother(s: Race, trace: seq<Action>, key: Key, j: nat)
    requires s.WellFormed() && Gone(s, key) && j < |s.procs| && s.mints[j] != key
    requires s.procs[j] == DidSet || (s.procs[j].Adopted? && s.procs[j].key != key)
    requires RunFrom(s, trace).Settled()
    ensures j < |RunFrom(s, trace).procs|
    ensures RunFrom(s, trace).procs[j].Adopted? && RunFrom(s, trace).procs[j].key != key
    decreases |trace|
  {
    if trace != [] {
      WriterAdoptsAnother(s.Step(trace[0]), trace[1..], key, j);
    }
  }

  /** Once a process has adopted a key it keeps it. */
  lemma {:induction false} AdoptionIsFinal(s: Race, trace: seq<Action>, p: nat)
    requires p < |s.procs| && s.procs[p].Adopted?
    ensures p < |RunFrom(s, trace).procs| && RunFrom(s, trace).procs[p] == s.procs[p]
    decreases |trace|
  {
    if trace != [] {
      AdoptionIsFinal(s.Step(trace[0]), trace[1..], p);
    }
  }

  lemma TwoKeysSplit(s: Race, trace: seq<Action>, p: nat, q: nat)
    requires p < |s.procs| && s.procs[p].Adopted? && q < |s.procs| && s.procs[q].Adopted?
    requires s.procs[p].key != s.procs[q].key
    ensures !RunFrom(s, trace).AllAgree()
  {
    AdoptionIsFinal(s, trace, p);
    AdoptionIsFinal(s, trace, q);
  }

  lemma WriteAfterReturnSplits(s: Race, trace: seq<Action>, w: nat, intact: bool, p: nat, a: Action)
    requires Returned(s, w, intact) && s.Writes(a)
    requires p < |s.procs| && s.procs[p] == Adopted(s.mints[w]) && RunFrom(s.Step(a), trace).Settled()
    ensures !RunFrom(s.Step(a), trace).AllAgree()
  {
    hide RunFrom;
    var s' := s.Step(a);
    assert a.pid != w && s'.mints[a.pid] != s'.mints[w];
    assert Gone(s', s.mints[w]);
    WriterAdoptsAnother(s', trace, s.mints[w], a.pid);
    AdoptionIsFinal(s', trace, p);
  }

  /** After process `w`'s key was returned, a step the schedule condition forbids leads to a second key. */
  lemma {:induction false} BreakSplits(s: Race, trace: seq<Action>, w: nat, intact: bool, p: nat)
    requires Returned(s, w, intact) && p < |s.procs| && s.procs[p] == Adopted(s.mints[w])
    requires !Keeps(s, trace, w, intact) && RunFrom(s, trace).Settled()
    ensures !RunFrom(s, trace).AllAgree()
    decreases |trace|
  {
    var a, rest := trace[0], trace[1..];
    var s', intact' := s.Step(a), intact && !s.Reaches(a);
    ReturnedStep(s, w, intact, a);
    if s.Writes(a) {
      WriteAfterReturnSplits(s, rest, w, intact, p, a);
    } else if (s.Reads(a) && !intact) || (s.TakesOwn(a) && a.pid != w) {
      TwoKeysSplit(s', rest, p, a.pid);
    } else {
      BreakSplits(s', rest, w, intact', p);
    }
  }

  lemma {:induction false} OtherwiseSplits(s: Race, trace: seq<Action>, last: Option<nat>)
    requires Stored(s, last) && NobodyAdopted(s)
    requires !OneSource(s, trace, last) && RunFrom(s, trace).Settled()
    ensures !RunFrom(s, trace).AllAgree()
    decreases |trace|
  {
    var a, rest := trace[0], trace[1..];
    var s' := s.Step(a);
    StoredStep(s, last, a);
    if s.Reads(a) {
      BreakSplits(s', rest, last.value, true, a.pid);
    } else if s.TakesOwn(a) {
      BreakSplits(s', rest, a.pid, last == Some(a.pid), a.pid);
    } else {
      OtherwiseSplits(s', rest, if s.Reaches(a) then Some(a.pid) else last);
    }
  }

  /** On a fresh machine, whatever the interleaving and whichever store accesses fail, once every writer has
      re-read: all processes that returned a key returned the same one exactly when the returned keys have
      one source. The re-read alone does not make them converge. */
  lemma ConvergeIffOneSource(mints: seq<Key>, trace: seq<Action>)
    requires Fresh(mints).WellFormed() && RunFrom(Fresh(mints), trace).Settled()
    ensures RunFrom(Fresh(mints), trace).AllAgree() <==> OneSource(Fresh(mints), trace, None)
  {
    if OneSource(Fresh(mints), trace, None) {
      OneSourceAgrees(Fresh(mints), trace, None);
    } else {
      OtherwiseSplits(Fresh(mints), trace, None);
    }
  }

  // ----- When no access fails

  predicate NoFailures(trace: seq<Action>) {
    forall a :: a in trace ==> (a.Get? || a.Set? || a.Reread?) ==> !a.fails
  }

  /** No process writes its key. */
  predicate Quiet(s: Race, trace: seq<Action>)
    decreases |trace|
  {
    trace != [] ==> !s.Writes(trace[0]) && Quiet(s.Step(trace[0]), trace[1..])
  }

  /** Every write precedes every read that adopts a key. */
  predicate WritesFirst(s: Race, trace: seq<Action>)
    decreases |trace|
  {
    trace != [] ==>
      if s.Adopts(trace[0]) then Quiet(s.Step(trace[0]), trace[1..]) else WritesFirst(s.Step(trace[0]), trace[1..])
  }

  lemma {:induction false} KeepsIffQuiet(s: Race, trace: seq<Action>, w: nat)
    requires NoFailures(trace)
    ensures Keeps(s, trace, w, true) <==> Quiet(s, trace)
    decreases |trace|
  {
    if trace != [] {
      assert trace[0] in trace;
      KeepsIffQuiet(s.Step(trace[0]), trace[1..], w);
    }
  }

  lemma {:induction false} OneSourceIffWritesFirst(s: Race, trace: seq<Action>, last: Option<nat>)
    requires Stored(s, last) && NoFailures(trace)
    ensures OneSource(s, trace, last) <==> WritesFirst(s, trace)
    decreases |trace|
  {
    if trace != [] {
      var a := trace[0];
      assert a in trace;
      StoredStep(s, last, a);
      if s.Reads(a) {
        KeepsIffQuiet(s.Step(a), trace[1..], last.value);
      } else {
        OneSourceIffWritesFirst(s.Step(a), trace[1..], if s.Reaches(a) then Some(a.pid) else last);
      }
    }
  }

  /** If no access fails, the condition is that every write comes before every adopting read. */
  lemma ConvergeIffWritesFirst(mints: seq<Key>, trace: seq<Action>)
    requires Fresh(mints).WellFormed() && RunFrom(Fresh(mints), trace).Settled() && NoFailures(trace)
    ensures RunFrom(Fresh(mints), trace).AllAgree() <==> WritesFirst(Fresh(mints), trace)
  {
    ConvergeIffOneSource(mints, trace);
    OneSourceIffWritesFirst(Fresh(mints), trace, None);
  }

  lemma RunFour(s: Race, a: Action, b: Action, c: Action, d: Action, rest: seq<Action>)
    ensures RunFrom(s, [a, b, c, d] + rest) == RunFrom(s.Step(a).Step(b).Step(c).Step(d), rest)
  {
    RunCons(s, a, [b, c, d] + rest);
    RunCons(s.Step(a), b, [c, d] + rest);
    RunCons(s.Step(a).Step(b), c, [d] + rest);
    RunCons(s.Step(a).Step(b).Step(c), d, rest);
    hide RunFrom, Race.Step;
    assert [a, b, c, d] + rest == [a] + ([b, c, d] + rest);
    assert [b, c, d] + rest == [b] + ([c, d] + rest) && [c, d] + rest == [c] + ([d] + rest);
  }

  lemma RunCons(s: Race, a: Action, rest: seq<Action>)
    ensures RunFrom(s, [a] + rest) == RunFrom(s.Step(a), rest)
  {
    assert ([a] + rest)[1..] == rest;
  }

  lemma RunOfNothing(s: Race)
    ensures RunFrom(s, []) == s
  {
  }

  // ----- Schedules that end with two keys

  /** Two processes have seen no key and no marker. */
  const BothMayMint := [Get(0, false), Get(1, false), Check(0), Check(1)]

  lemma TwoAboutToMint(a: Key, b: Key, rest: seq<Action>)
    ensures RunFrom(Fresh([a, b]), BothMayMint + rest) == RunFrom(Race(None, false, [MayMint, MayMint], [a, b]), rest)
  {
    var s := Fresh([a, b]);
    assert s.procs == [Start, Start];
    RunFour(s, Get(0, false), Get(1, false), Check(0), Check(1), rest);
    assert s.Step(Get(0, false)).Step(Get(1, false)).Step(Check(0)).Step(Check(1))
        == Race(None, false, [MayMint, MayMint], [a, b]);
  }

  /** Two processes that both saw no key, each writing and re-reading in turn, keep two keys. */
  lemma WriteRereadInTurnSplits(a: Key, b: Key)
    requires a != b
    ensures var trace := BothMayMint + [Set(0, false, true), Reread(0, false), Set(1, false, true), Reread(1, false)];
      RunFrom(Fresh([a, b]), trace).procs == [Adopted(a), Adopted(b)]
  {
    hide RunFrom;
    var t := [Set(0, false, true), Reread(0, false), Set(1, false, true), Reread(1, false)];
    TwoAboutToMint(a, b, t);
    var s := Race(None, false, [MayMint, MayMint], [a, b]);
    assert t + [] == t;
    RunFour(s, t[0], t[1], t[2], t[3], []);
    RunOfNothing(s.Step(t[0]).Step(t[1]).Step(t[2]).Step(t[3]));
  }

  /** With all writes before all re-reads, one re-read that fails still leaves two keys. */
  lemma FailedRereadSplits(a: Key, b: Key)
    requires a != b
    ensures var trace := BothMayMint + [Set(0, false, true), Set(1, false, true), Reread(0, true), Reread(1, false)];
      RunFrom(Fresh([a, b]), trace).procs == [Adopted(a), Adopted(b)]
  {
    hide RunFrom;
    var t := [Set(0, false, true), Set(1, false, true), Reread(0, true), Reread(1, false)];
    TwoAboutToMint(a, b, t);
    var s := Race(None, false, [MayMint, MayMint], [a, b]);
    assert t + [] == t;
    RunFour(s, t[0], t[1], t[2], t[3], []);
    RunOfNothing(s.Step(t[0]).Step(t[1]).Step(t[2]).Step(t[3]));
  }

  // ----- One process alone is `resolve_lpk`

  /** One process's five accesses in order; a marker that cannot be written is as good as not tried. */
  function Alone(entry: Option<Key>, marker: bool, w: Keywrap.Weather): Race {
    var s := Race(entry, marker, [Start], [w.drawn]).Step(Get(0, w.getFails)).Step(Check(0))
      .Step(Set(0, w.setFails, w.setReached)).Step(Reread(0, w.rereadFails));
    if w.markerFails then s else s.Step(Mark(0))
  }

  lemma AloneIs(entry: Option<Key>, marker: bool, w: Keywrap.Weather)
    ensures var s := Alone(entry, marker, w);
      var minting := !w.getFails && entry.None? && !marker;
      && s.procs == [if w.getFails then Failed
                     else if entry.Some? then Adopted(entry.value)
                     else if marker then Missing
                     else if w.setFails then Failed
                     else Adopted(w.drawn)]
      && s.entry == (if minting && (!w.setFails || w.setReached) then Some(w.drawn) else entry)
      && s.marker == (marker || (s.procs[0].Adopted? && !w.markerFails))
  {
    var s := Race(entry, marker, [Start], [w.drawn]);
    var s1 := s.Step(Get(0, w.getFails));
    if w.getFails {
      assert s1.procs == [Failed];
    } else if entry.Some? {
      assert s1.procs == [Adopted(entry.value)];
    } else {
      assert s1.procs == [SawNone];
      var s2 := s1.Step(Check(0));
      assert s2.procs == [if marker then Missing else MayMint];
      var s3 := s2.Step(Set(0, w.setFails, w.setReached));
      if !marker {
        assert s3.procs == [if w.setFails then Failed else DidSet];
        var s4 := s3.Step(Reread(0, w.rereadFails));
        assert !w.setFails ==> s4.procs == [Adopted(w.drawn)];
      }
    }
  }

  /** Run without interruption, the accesses are the policy `Keywrap.Slot.Resolve` gives for sealing,
      whichever of them fail. */
  lemma AloneIsResolve(t: Keywrap.KeyText, entry: Option<Key>, marker: bool, w: Keywrap.Weather)
    requires t.Lawful()
    ensures var text := match entry case Some(k) => Some(t.encode(k)) case None => None;
      var (slot, key) := Keywrap.Slot(text, marker).Resolve(t, Keywrap.Seal, w);
      var s := Alone(entry, marker, w);
      && s.procs == [match key
                     case Ok(k) => Adopted(k)
                     case Err(e) => if e == Keywrap.LpkMissing then Missing else Failed]
      && s.marker == slot.marker
      && slot.entry == (match s.entry case Some(k) => Some(t.encode(k)) case None => None)
  {
    hide Alone;
    AloneIs(entry, marker, w);
    assert t.DecodeKey(t.encode(w.drawn)) == Ok(w.drawn);
    assert entry.Some? ==> t.DecodeKey(t.encode(entry.value)) == Ok(entry.value);
  }
}
