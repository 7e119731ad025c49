/** The keys of a part under the sustain pedal: the stack against the player's fingers. */
module Keyboard {
  import opened Bytes
  import opened NoteStack

  const CAPACITY := 12

  datatype Event = Down(note: byte, velocity: byte) | Up(note: byte) | PedalDown | PedalUp

  // ---- What the part does to its stack ----

  datatype State = State(keys: seq<Key>, pedal: bool)

  predicate IsFlagged(key: Key) {
    HighBit(key.velocity)
  }

  /** Marks a key that is released while the pedal holds it. */
  function Flag(keys: seq<Key>, note: byte): (r: seq<Key>)
    ensures |r| == |keys|
    ensures forall i :: 0 <= i < |keys| ==>
      r[i] == if keys[i].note == note && keys[i].velocity != 0 then Key(note, SetHighBit(keys[i].velocity)) else keys[i]
  {
    if keys == [] then []
    else
      var key := keys[0];
      [if key.note == note && key.velocity != 0 then Key(note, SetHighBit(key.velocity)) else key] +
          Flag(keys[1..], note)
  }

  function Unflagged(keys: seq<Key>): seq<Key> {
    if keys == [] then []
    else (if IsFlagged(keys[0]) then [] else [keys[0]]) + Unflagged(keys[1..])
  }

  function Play(s: State, e: Event): State
    decreases e.Down?
  {
    match e
    case Down(note, velocity) =>
      if velocity == 0 then Play(s, Up(note)) else s.(keys := Press(s.keys, CAPACITY, Key(note, velocity)))
    case Up(note) => s.(keys := if s.pedal then Flag(s.keys, note) else Release(s.keys, note))
    case PedalDown => s.(pedal := true)
    case PedalUp => State(Unflagged(s.keys), false)
  }

  function PlayAll(s: State, events: seq<Event>): State
    decreases |events|
  {
    if events == [] then s else PlayAll(Play(s, events[0]), events[1..])
  }

  // ---- What the player does ----

  datatype Fingers = Fingers(held: set<byte>, sustained: set<byte>, pedal: bool)

  function Move(f: Fingers, e: Event): Fingers
    decreases e.Down?
  {
    match e
    case Down(note, velocity) =>
      if velocity == 0 then Move(f, Up(note)) else f.(held := f.held + {note}, sustained := f.sustained - {note})
    case Up(note) =>
      if f.pedal then f.(held := f.held - {note}, sustained := f.sustained + (f.held * {note}))
      else f.(held := f.held - {note}, sustained := f.sustained - {note})
    case PedalDown => f.(pedal := true)
    case PedalUp => Fingers(f.held, {}, false)
  }

  function MoveAll(f: Fingers, events: seq<Event>): Fingers
    decreases |events|
  {
    if events == [] then f else MoveAll(Move(f, events[0]), events[1..])
  }

  /** The event does not make the player hold or sustain a thirteenth key. */
  ghost predicate Fits(f: Fingers, e: Event) {
    e.Down? && e.velocity != 0 ==> |f.held + f.sustained + {e.note}| <= CAPACITY
  }

  ghost predicate AllFit(f: Fingers, events: seq<Event>)
    decreases |events|
  {
    events == [] || (Fits(f, events[0]) && AllFit(Move(f, events[0]), events[1..]))
  }

  ghost predicate Playable(e: Event) {
    e.Down? ==> e.velocity < 128
  }

  // ---- They agree ----

  function HeldNotes(keys: seq<Key>): set<byte> {
    if keys == [] then {} else (if IsFlagged(keys[0]) then {} else {keys[0].note}) + HeldNotes(keys[1..])
  }

  function SustainedNotes(keys: seq<Key>): set<byte> {
    if keys == [] then {} else (if IsFlagged(keys[0]) then {keys[0].note} else {}) + SustainedNotes(keys[1..])
  }

  /** The stack's plain keys are the held ones, its flagged keys the sustained ones. */
  ghost predicate Matches(s: State, f: Fingers) {
    s.pedal == f.pedal && f.held == HeldNotes(s.keys) && f.sustained == SustainedNotes(s.keys)
  }

  ghost predicate WellFormed(s: State) {
    DistinctNotes(s.keys) && |s.keys| <= CAPACITY && forall i :: 0 <= i < |s.keys| ==> s.keys[i].velocity != 0
  }

  lemma {:induction false} NotAmong(keys: seq<Key>, note: byte)
    requires forall i :: 0 <= i < |keys| ==> keys[i].note != note
    ensures note !in HeldNotes(keys) + SustainedNotes(keys)
  {
    if keys != [] {
      NotAmong(keys[1..], note);
    }
  }

  lemma {:induction false} ReleaseForgets(keys: seq<Key>, note: byte)
    requires DistinctNotes(keys)
    ensures HeldNotes(Release(keys, note)) == HeldNotes(keys) - {note}
    ensures SustainedNotes(Release(keys, note)) == SustainedNotes(keys) - {note}
  {
    if keys != [] {
      if keys[0].note == note {
        NotAmong(keys[1..], note);
      } else {
        ReleaseForgets(keys[1..], note);
        assert Release(keys, note)[1..] == Release(keys[1..], note);
      }
    }
  }

  lemma {:induction false} FlagSustains(keys: seq<Key>, note: byte)
    requires DistinctNotes(keys) && forall i :: 0 <= i < |keys| ==> keys[i].velocity != 0
    ensures HeldNotes(Flag(keys, note)) == HeldNotes(keys) - {note}
    ensures SustainedNotes(Flag(keys, note)) == SustainedNotes(keys) + (HeldNotes(keys) * {note})
  {
    if keys != [] {
      FlagSustains(keys[1..], note);
      assert Flag(keys, note)[1..] == Flag(keys[1..], note);
      if keys[0].note == note {
        NotAmong(keys[1..], note);
      }
    }
  }

  lemma {:induction false} UnflaggedIsHeld(keys: seq<Key>)
    ensures HeldNotes(Unflagged(keys)) == HeldNotes(keys) && SustainedNotes(Unflagged(keys)) == {}
    ensures |Unflagged(keys)| <= |keys|
    ensures forall i :: 0 <= i < |Unflagged(keys)| ==> Unflagged(keys)[i] in keys
    ensures DistinctNotes(keys) ==> DistinctNotes(Unflagged(keys))
  {
    if keys != [] {
      UnflaggedIsHeld(keys[1..]);
      var rest := Unflagged(keys[1..]);
      if !IsFlagged(keys[0]) {
        assert Unflagged(keys) == [keys[0]] + rest && Unflagged(keys)[1..] == rest;
      } else {
        assert Unflagged(keys) == rest;
      }
    }
  }

  lemma {:induction false} OneKeyPerNote(keys: seq<Key>)
    requires DistinctNotes(keys)
    ensures |HeldNotes(keys) + SustainedNotes(keys)| == |keys|
  {
    if keys != [] {
      OneKeyPerNote(keys[1..]);
      NotAmong(keys[1..], keys[0].note);
      assert HeldNotes(keys) + SustainedNotes(keys) ==
             HeldNotes(keys[1..]) + SustainedNotes(keys[1..]) + {keys[0].note};
    }
  }

  lemma ReleaseStaysWellFormed(s: State, note: byte)
    requires WellFormed(s)
    ensures WellFormed(s.(keys := Release(s.keys, note)))
  {
    var k := ReleaseCases(s.keys, note);
  }

  lemma PushKeepsWellFormed(keys: seq<Key>, key: Key)
    requires DistinctNotes(keys) && |keys| < CAPACITY && key.velocity != 0
    requires forall i :: 0 <= i < |keys| ==> keys[i].note != key.note && keys[i].velocity != 0
    ensures WellFormed(State([key] + keys, false))
  {
  }

  lemma CountOneMore(s: set<byte>, t: set<byte>, note: byte)
    requires s == t - {note}
    ensures |t + {note}| == |s| + 1
  {
    assert t + {note} == s + {note};
  }

  /** Room for one more key is room for one more note. */
  lemma CountWith(others: seq<Key>, held: set<byte>, sustained: set<byte>, note: byte)
    requires DistinctNotes(others)
    requires HeldNotes(others) == held - {note} && SustainedNotes(others) == sustained - {note}
    ensures |held + sustained + {note}| == |others| + 1
  {
    OneKeyPerNote(others);
    CountOneMore(HeldNotes(others) + SustainedNotes(others), held + sustained, note);
  }

  lemma PushedNotes(keys: seq<Key>, key: Key)
    requires !IsFlagged(key)
    ensures HeldNotes([key] + keys) == {key.note} + HeldNotes(keys)
    ensures SustainedNotes([key] + keys) == SustainedNotes(keys)
  {
    assert ([key] + keys)[1..] == keys;
  }

  /** A press, for the part and for the player. */
  lemma PressIs(s: State, f: Fingers, note: byte, velocity: byte)
    requires WellFormed(s) && Matches(s, f) && velocity != 0
    ensures DistinctNotes(s.keys) && |s.keys| <= CAPACITY && 0 < CAPACITY
    ensures velocity < 128 ==> !IsFlagged(Key(note, velocity))
    ensures f.held == HeldNotes(s.keys) && f.sustained == SustainedNotes(s.keys) && f.pedal == s.pedal
    ensures Fits(f, Down(note, velocity)) <==> |f.held + f.sustained + {note}| <= CAPACITY
    ensures var others, key := Release(s.keys, note), Key(note, velocity);
            var after := [key] + if |others| >= CAPACITY then others[..CAPACITY - 1] else others;
            && Play(s, Down(note, velocity)) == s.(keys := after)
            && (WellFormed(State(after, false)) ==> WellFormed(s.(keys := after)))
            && (Matches(s.(keys := after), Move(f, Down(note, velocity))) <==>
                HeldNotes(after) == f.held + {note} && SustainedNotes(after) == f.sustained - {note})
  {
    hide HeldNotes, SustainedNotes, Release;
  }

  lemma KeysAreWellFormed(s: State)
    ensures WellFormed(s) <==>
            && DistinctNotes(s.keys) && |s.keys| <= CAPACITY
            && forall i :: 0 <= i < |s.keys| ==> s.keys[i].velocity != 0
    ensures WellFormed(s) <==> WellFormed(State(s.keys, false))
  {
  }

  /** A press is remembered exactly when the key fits; a thirteenth key makes the oldest one drop out. */
  lemma PressMatches(s: State, f: Fingers, note: byte, velocity: byte)
    requires WellFormed(s) && Matches(s, f) && 0 < velocity < 128
    ensures WellFormed(Play(s, Down(note, velocity)))
    ensures Matches(Play(s, Down(note, velocity)), Move(f, Down(note, velocity))) <==> Fits(f, Down(note, velocity))
  {
    hide *;
    PressIs(s, f, note, velocity);
    var others, key := Release(s.keys, note), Key(note, velocity);
    ReleaseStaysWellFormed(s, note);
    KeysAreWellFormed(s.(keys := others));
    PressInSteps(s.keys, CAPACITY, note);
    ReleaseForgets(s.keys, note);
    CountWith(others, f.held, f.sustained, note);
    if |others| < CAPACITY {
      PushKeepsWellFormed(others, key);
      PushedNotes(others, key);
    } else {
      OverflowForgets(others, f.held, f.sustained, key);
    }
  }

  lemma OverflowForgets(others: seq<Key>, held: set<byte>, sustained: set<byte>, key: Key)
    requires WellFormed(State(others, false)) && |others| == CAPACITY && 0 < key.velocity < 128
    requires forall i :: 0 <= i < |others| ==> others[i].note != key.note
    requires |held + sustained + {key.note}| == CAPACITY + 1
    ensures WellFormed(State([key] + others[..CAPACITY - 1], false))
    ensures !(HeldNotes([key] + others[..CAPACITY - 1]) == held + {key.note} &&
              SustainedNotes([key] + others[..CAPACITY - 1]) == sustained - {key.note})
  {
    var kept := others[..CAPACITY - 1];
    PushKeepsWellFormed(kept, key);
    OneKeyPerNote([key] + kept);
    assert held + {key.note} + (sustained - {key.note}) == held + sustained + {key.note};
  }

  lemma EventMatches(s: State, f: Fingers, e: Event)
    requires WellFormed(s) && Matches(s, f) && Playable(e)
    ensures WellFormed(Play(s, e))
    ensures Matches(Play(s, e), Move(f, e)) <==> Fits(f, e)
    decreases e.Down?
  {
    match e
    case Down(note, velocity) =>
      if velocity == 0 {
        EventMatches(s, f, Up(note));
      } else {
        PressMatches(s, f, note, velocity);
      }
    case Up(note) =>
      if s.pedal {
        FlagSustains(s.keys, note);
      } else {
        ReleaseStaysWellFormed(s, note);
        ReleaseForgets(s.keys, note);
      }
    case PedalDown =>
    case PedalUp =>
      UnflaggedIsHeld(s.keys);
  }

  /** Over any run that never asks for a thirteenth key, the stack is the keys held and sustained. */
  lemma {:induction false} StackFollowsFingers(s: State, f: Fingers, events: seq<Event>)
    requires WellFormed(s) && Matches(s, f) && AllFit(f, events)
    requires forall i :: 0 <= i < |events| ==> Playable(events[i])
    ensures Matches(PlayAll(s, events), MoveAll(f, events))
    decreases |events|
  {
    if events != [] {
      EventMatches(s, f, events[0]);
      StackFollowsFingers(Play(s, events[0]), Move(f, events[0]), events[1..]);
    }
  }

  // ---- The part's own handling of keys ----

  /** `ArpSequencerMode`. */
  datatype Mode = Step | Arpeggiator | Note | Latch | ChordSequencer

  predicate KeepsPhysicalKeys(mode: Mode) {
    mode.Step? || mode.Arpeggiator? || mode.Note?
  }

  /** The calls that key handling makes to the sounding side of the part. */
  datatype Effect = SoundNote(note: byte, velocity: byte) | SilenceNote(note: byte) | SilenceAll

  /** What releasing a key makes sound or fall silent; `left` are the keys that remain. */
  function ReleaseEffects(mode: Mode, chordDirection: bool, pedal: bool, left: seq<Key>, note: byte): seq<Effect> {
    if pedal || !KeepsPhysicalKeys(mode) then []
    else if mode.Step? || (mode.Arpeggiator? && chordDirection) then [SilenceNote(note)]
    else if left == [] then [SilenceAll]
    else []
  }

  /** The notes of the flagged slots, in the order of the slots. */
  ghost function FlaggedSlots(pool: seq<Node>, from: nat): seq<byte>
    decreases |pool| - from
  {
    if from >= |pool| then []
    else (if HighBit(pool[from].velocity) then [pool[from].note] else []) + FlaggedSlots(pool, from + 1)
  }

  function SilenceEach(notes: seq<byte>): (effects: seq<Effect>)
    ensures |effects| == |notes|
  {
    seq(|notes|, i requires 0 <= i < |notes| => SilenceNote(notes[i]))
  }

  /**
   What the pedal's release does from a slot on: each flagged note falls silent, or everything once no key is
   left.
   */
  ghost function PedalEffects(
      mode: Mode, chordDirection: bool, pool: seq<Node>, keys: seq<Key>, slot: nat := 1): seq<Effect> {
    if !KeepsPhysicalKeys(mode) then []
    else if mode.Step? || (mode.Arpeggiator? && chordDirection) then SilenceEach(FlaggedSlots(pool, slot))
    else if keys != [] && Unflagged(keys) == [] then [SilenceAll]
    else []
  }

  lemma OneSlot(pool: seq<Node>, from: nat)
    ensures FlaggedSlots(pool, from) ==
            if from >= |pool| then []
            else (if HighBit(pool[from].velocity) then [pool[from].note] else []) + FlaggedSlots(pool, from + 1)
  {
    hide HighBit;
  }

  lemma {:induction false} SameFlags(before: seq<Node>, after: seq<Node>, from: nat)
    requires |before| == |after|
    requires forall s :: from <= s < |before| ==>
      HighBit(before[s].velocity) == HighBit(after[s].velocity) &&
          (HighBit(after[s].velocity) ==> before[s].note == after[s].note)
    ensures FlaggedSlots(before, from) == FlaggedSlots(after, from)
    decreases |before| - from
  {
    hide *;
    OneSlot(before, from);
    OneSlot(after, from);
    if from < |before| {
      SameFlags(before, after, from + 1);
    }
  }

  /** No slot below this one is flagged, if flagged keys are swept at all. */
  ghost predicate Swept(mode: Mode, pool: seq<Node>, slot: nat) {
    KeepsPhysicalKeys(mode) ==> forall s :: 1 <= s < slot && s < |pool| ==> !HighBit(pool[s].velocity)
  }

  lemma PassedSlot(mode: Mode, chordDirection: bool, pool: seq<Node>, keys: seq<Key>, slot: nat)
    requires slot < |pool| && !HighBit(pool[slot].velocity) && Swept(mode, pool, slot)
    ensures Swept(mode, pool, slot + 1)
    ensures PedalEffects(mode, chordDirection, pool, keys, slot) ==
            PedalEffects(mode, chordDirection, pool, keys, slot + 1)
  {
    assert FlaggedSlots(pool, slot) == FlaggedSlots(pool, slot + 1);
  }

  /** One flagged slot of the pedal's scan is released. */
  lemma ReleasedSlot(
      mode: Mode, chordDirection: bool, pool: seq<Node>, keys: seq<Key>, pool': seq<Node>, keys': seq<Key>, slot: nat)
    requires KeepsPhysicalKeys(mode) && 0 < slot < |pool| && HighBit(pool[slot].velocity) && Swept(mode, pool, slot)
    requires keys != [] && Unflagged(keys') == Unflagged(keys) && EmptiesSlot(pool, pool', pool[slot].note)
    requires forall s :: 1 <= s < |pool| && s != slot ==> pool[s].note != pool[slot].note
    ensures Swept(mode, pool', slot + 1)
    ensures PedalEffects(mode, chordDirection, pool, keys, slot) ==
            ReleaseEffects(mode, chordDirection, false, keys', pool[slot].note) +
            PedalEffects(mode, chordDirection, pool', keys', slot + 1)
  {
    SameFlags(pool, pool', slot + 1);
    var note, rest := pool[slot].note, FlaggedSlots(pool, slot + 1);
    assert FlaggedSlots(pool, slot) == [note] + rest;
    assert SilenceEach([note] + rest) == [SilenceNote(note)] + SilenceEach(rest);
  }

  ghost predicate IsFlaggedFrom(pool: seq<Node>, from: nat, note: byte) {
    exists s :: from <= s < |pool| && HighBit(pool[s].velocity) && pool[s].note == note
  }

  lemma FlaggedHereOrLater(pool: seq<Node>, from: nat, note: byte)
    ensures IsFlaggedFrom(pool, from, note) <==>
            from < |pool| &&
                ((HighBit(pool[from].velocity) && pool[from].note == note) || IsFlaggedFrom(pool, from + 1, note))
  {
    hide HighBit;
  }

  lemma {:induction false} InFlaggedSlots(pool: seq<Node>, from: nat, note: byte)
    ensures note in FlaggedSlots(pool, from) <==> IsFlaggedFrom(pool, from, note)
    decreases |pool| - from
  {
    hide *;
    OneSlot(pool, from);
    FlaggedHereOrLater(pool, from, note);
    if from < |pool| {
      InFlaggedSlots(pool, from + 1, note);
    }
  }

  lemma {:induction false} InSustained(keys: seq<Key>, note: byte)
    ensures note in SustainedNotes(keys) <==> exists k :: 0 <= k < |keys| && IsFlagged(keys[k]) && keys[k].note == note
  {
    if keys != [] {
      InSustained(keys[1..], note);
      if k :| 0 <= k < |keys| && IsFlagged(keys[k]) && keys[k].note == note {
        assert k > 0 ==> keys[1..][k - 1] == keys[k];
      }
    }
  }

  /** In the latch modes a flagged slot stays. */
  lemma KeptSlot(
      mode: Mode, chordDirection: bool, pool: seq<Node>, keys: seq<Key>, pool': seq<Node>, slot: nat, note: byte)
    requires !KeepsPhysicalKeys(mode)
    ensures Swept(mode, pool', slot + 1) && ReleaseEffects(mode, chordDirection, false, keys, note) == []
    ensures PedalEffects(mode, chordDirection, pool, keys, slot) == [] ==
            PedalEffects(mode, chordDirection, pool', keys, slot + 1)
  {
  }

  lemma {:induction false} FlagAbsent(keys: seq<Key>, note: byte)
    requires forall i :: 0 <= i < |keys| ==> keys[i].note != note
    ensures Flag(keys, note) == keys
  {
    if keys != [] {
      FlagAbsent(keys[1..], note);
    }
  }

  lemma {:induction false} ReleaseFlagged(keys: seq<Key>, note: byte)
    requires forall i :: 0 <= i < |keys| && keys[i].note == note ==> IsFlagged(keys[i])
    ensures Unflagged(Release(keys, note)) == Unflagged(keys)
  {
    if keys != [] && keys[0].note != note {
      ReleaseFlagged(keys[1..], note);
      assert Release(keys, note)[1..] == Release(keys[1..], note);
    }
  }

  lemma {:induction false} AllUnflagged(keys: seq<Key>)
    requires forall i :: 0 <= i < |keys| ==> !IsFlagged(keys[i])
    ensures Unflagged(keys) == keys
  {
    if keys != [] {
      AllUnflagged(keys[1..]);
    }
  }

  lemma FlagOne(keys: seq<Key>, note: byte, velocity: byte)
    requires WellFormed(State(keys, false)) && Key(note, velocity) in keys
    ensures velocity != 0 && Flag(keys, note) == WithVelocity(keys, note, SetHighBit(velocity))
  {
  }

  /** Only notes of the scale ever get pressed. */
  ghost predicate Accepted(keys: seq<Key>, rejected: set<byte>) {
    forall i :: 0 <= i < |keys| ==> keys[i].note < 128 && keys[i].note !in rejected
  }

  lemma {:induction false} FlagAgain(keys: seq<Key>, note: byte)
    requires forall i :: 0 <= i < |keys| && keys[i].note == note ==> IsFlagged(keys[i])
    ensures Flag(keys, note) == keys
  {
    if keys != [] {
      FlagAgain(keys[1..], note);
    }
  }

  lemma PressKeepsValid(s: State, key: Key, rejected: set<byte>)
    requires WellFormed(s) && Accepted(s.keys, rejected)
    requires key.note < 128 && key.note !in rejected && 0 < key.velocity < 128
    ensures WellFormed(s.(keys := Press(s.keys, CAPACITY, key))) && Accepted(Press(s.keys, CAPACITY, key), rejected)
  {
    var others := Release(s.keys, key.note);
    ReleaseStaysWellFormed(s, key.note);
    PressInSteps(s.keys, CAPACITY, key.note);
    ReleaseKeepsNotes(s.keys, key.note, rejected);
    PushKeepsWellFormed(if |others| >= CAPACITY then others[..CAPACITY - 1] else others, key);
  }

  lemma FlagKeepsWellFormed(s: State, note: byte)
    requires WellFormed(s)
    ensures WellFormed(s.(keys := Flag(s.keys, note)))
    ensures forall i :: 0 <= i < |s.keys| ==> Flag(s.keys, note)[i].note == s.keys[i].note
  {
  }

  lemma ReleaseKeepsNotes(keys: seq<Key>, note: byte, rejected: set<byte>)
    requires DistinctNotes(keys) && Accepted(keys, rejected)
    ensures Accepted(Release(keys, note), rejected)
  {
    var k := ReleaseCases(keys, note);
  }

  class Keys {
    const pressed: Stack
    var mode: Mode
    /** The arpeggiator's direction is CHORD. */
    var chordDirection: bool
    var pedal: bool
    /** The notes that the part's scale leaves out. */
    var rejected: set<byte>
    var effects: seq<Effect>

    ghost predicate Valid()
      reads this, pressed, pressed.mem, pressed.sorted
    {
      && pressed.Valid() && pressed.capacity == CAPACITY
      && WellFormed(Abs())
      && Accepted(pressed.Keys(), rejected)
    }

    ghost function Abs(): State
      requires pressed.Valid()
      reads this, pressed, pressed.mem, pressed.sorted
    {
      State(pressed.Keys(), pedal)
    }

    constructor ()
      ensures Valid() && Abs() == State([], false) && fresh(pressed) && fresh(pressed.mem) && fresh(pressed.sorted)
      ensures mode == Step && !chordDirection && rejected == {} && effects == []
    {
      pressed := new Stack(CAPACITY);
      mode, chordDirection, pedal, rejected, effects := Step, false, false, {}, [];
    }

    /** Marks the key of a pitch, scanning every slot of the pool. */
    method FlagKey(note: byte)
      requires pressed.Valid() && WellFormed(Abs()) && note != FREE_SLOT
      modifies pressed.mem
      ensures pressed.Valid() && pressed.Keys() == Flag(old(pressed.Keys()), note)
    {
      hide IsChain, IsSortedIndex, KeysOf, Nodes, Flag;
      ghost var keys := pressed.Keys();
      ghost var found := false;
      for i := 1 to pressed.capacity + 1
        invariant pressed.Valid()
        invariant found ==> pressed.Keys() == Flag(keys, note)
        invariant found ==> forall s :: i <= s <= pressed.capacity ==> pressed.Pool()[s].note != note
        invariant !found ==> pressed.Keys() == keys && forall s :: 1 <= s < i ==> pressed.Pool()[s].note != note
      {
        var e := pressed.NodeAt(i);
        if e.note == note {
          pressed.SlotHoldsKey(i);
          FlagOne(keys, note, e.velocity);
          if e.velocity != 0 {
            pressed.SetVelocity(i, SetHighBit(e.velocity));
          }
          found := true;
        }
      }
      if !found {
        AbsentFromSlots(note);
        FlagAbsent(keys, note);
      }
    }

    /** Silences everything and forgets the keys, unless the pedal holds them. */
    method AllNotesOff()
      requires Valid()
      modifies this`effects, pressed, pressed.mem, pressed.sorted
      ensures Valid() && Abs() == if pedal then old(Abs()) else State([], false)
      ensures effects == if pedal then old(effects) else old(effects) + [SilenceAll]
      ensures !pedal ==> forall s :: 1 <= s <= CAPACITY ==>
              pressed.Pool()[s].velocity == 0 && pressed.Pool()[s].note == FREE_SLOT
    {
      if !pedal {
        pressed.Clear();
        effects := effects + [SilenceAll];
      }
    }

    /** Forgets the keys whatever the pedal does, as part of silencing the cards. */
    method Forget()
      requires Valid()
      modifies pressed, pressed.mem, pressed.sorted
      ensures Valid() && Abs() == State([], pedal)
    {
      pressed.Clear();
    }

    method NoteOff(note: byte)
      requires Valid() && note < 128
      modifies this`effects, this`pedal, pressed, pressed.mem, pressed.sorted
      ensures Valid() && pedal == old(pedal)
      ensures note in rejected ==> Abs() == old(Abs())
      ensures note !in rejected && KeepsPhysicalKeys(mode) ==> Abs() == Play(old(Abs()), Up(note))
      ensures note !in rejected && !KeepsPhysicalKeys(mode) ==> Abs().keys == Flag(old(Abs()).keys, note)
      ensures note !in rejected && KeepsPhysicalKeys(mode) && !pedal ==>
              EmptiesSlot(old(pressed.Pool()), pressed.Pool(), note)
      ensures effects == old(effects) +
                if note in rejected then [] else ReleaseEffects(mode, chordDirection, pedal, Abs().keys, note)
    {
      hide IsChain, IsSortedIndex, KeysOf, Nodes, WellFormed;
      if note in rejected {
        return;
      }
      ghost var pool := pressed.Pool();
      if pedal || !KeepsPhysicalKeys(mode) {
        FlagKeepsWellFormed(Abs(), note);
        FlagKey(note);
        return;
      }
      TakeOut(note);
      if mode.Step? || (mode.Arpeggiator? && chordDirection) {
        effects := effects + [SilenceNote(note)];
      } else if pressed.size == 0 {
        EmptyStackIsBlank();
        pedal := false;
        AllNotesOff();
      }
    }

    /** The slots of an empty stack are blank. */
    lemma EmptyStackIsBlank()
      requires pressed.Valid() && pressed.size == 0
      ensures forall s :: 1 <= s <= pressed.capacity ==>
              pressed.Pool()[s].velocity == 0 && pressed.Pool()[s].note == FREE_SLOT
    {
      forall s | 1 <= s <= pressed.capacity
        ensures pressed.Pool()[s].velocity == 0 && pressed.Pool()[s].note == FREE_SLOT
      {
        assert OthersFree(pressed.Pool(), pressed.order);
      }
    }

    method TakeOut(note: byte)
      requires Valid() && note < 128
      modifies pressed, pressed.mem, pressed.sorted
      ensures Valid() && pressed.Keys() == Release(old(pressed.Keys()), note)
      ensures EmptiesSlot(old(pressed.Pool()), pressed.Pool(), note)
    {
      ReleaseStaysWellFormed(Abs(), note);
      ReleaseKeepsNotes(pressed.Keys(), note, rejected);
      pressed.NoteOff(note);
    }

    method IsPressed(note: byte) returns (found: bool)
      requires pressed.Valid() && note != FREE_SLOT
      ensures found <==> exists k :: 0 <= k < |pressed.Keys()| && pressed.Keys()[k].note == note
    {
      for i := 1 to pressed.capacity + 1
        invariant forall s :: 1 <= s < i ==> pressed.Pool()[s].note != note
      {
        if pressed.NodeAt(i).note == note {
          pressed.SlotHoldsKey(i);
          return true;
        }
      }
      AbsentFromSlots(note);
      return false;
    }

    method NoteOn(note: byte, velocity: byte)
      requires Valid() && note < 128 && velocity < 128
      modifies this`effects, this`pedal, pressed, pressed.mem, pressed.sorted
      ensures Valid() && pedal == old(pedal)
      ensures note in rejected ==> Abs() == old(Abs()) && effects == old(effects)
      ensures note !in rejected && KeepsPhysicalKeys(mode) ==> Abs() == Play(old(Abs()), Down(note, velocity))
      ensures note !in rejected && velocity != 0 && mode.Latch? ==>
                var keys := old(Abs()).keys;
                Abs().keys == if exists k :: 0 <= k < |keys| && keys[k].note == note then Release(keys, note)
                              else Press(keys, CAPACITY, Key(note, velocity))
      ensures velocity != 0 && mode.ChordSequencer? ==> Abs() == old(Abs())
      ensures note !in rejected && velocity == 0 && !KeepsPhysicalKeys(mode) ==>
              Abs().keys == Flag(old(Abs()).keys, note)
      ensures note !in rejected ==>
                effects == old(effects) +
                  if velocity == 0 then ReleaseEffects(mode, chordDirection, pedal, Abs().keys, note)
                  else if mode.Step? then [SoundNote(note, velocity)] else []
    {
      hide *;
      Opened();
      if note in rejected {
        return;
      }
      PressedDown(note, velocity);
      if velocity == 0 {
        NoteOff(note);
        return;
      }
      PressKeepsValid(Abs(), Key(note, velocity), rejected);
      ReleaseStaysWellFormed(Abs(), note);
      if mode.Latch? {
        var playing := IsPressed(note);
        if playing {
          ReleaseKeepsNotes(pressed.Keys(), note, rejected);
          pressed.NoteOff(note);
        } else {
          pressed.NoteOn(note, velocity);
        }
      } else if !mode.ChordSequencer? {
        pressed.NoteOn(note, velocity);
        if mode.Step? {
          effects := effects + [SoundNote(note, velocity)];
        }
      }
      Opened();
    }

    /** What `Valid` says. */
    lemma Opened()
      ensures Valid() <==>
              && pressed.Valid() && pressed.capacity == CAPACITY
              && WellFormed(State(pressed.Keys(), pedal)) && Accepted(pressed.Keys(), rejected)
      ensures pressed.Valid() ==> Abs() == State(pressed.Keys(), pedal)
      ensures Valid() ==> |pressed.Keys()| <= CAPACITY && DistinctNotes(pressed.Keys())
    {
    }

    /** A press on values. */
    lemma PressedDown(note: byte, velocity: byte)
      requires pressed.Valid()
      ensures Play(Abs(), Down(note, velocity)) ==
              if velocity == 0 then Play(Abs(), Up(note))
              else State(Press(pressed.Keys(), CAPACITY, Key(note, velocity)), pedal)
      ensures KeepsPhysicalKeys(mode) <==> !mode.Latch? && !mode.ChordSequencer?
      ensures note < 128 ==> note != FREE_SLOT
    {
    }

    /** The hold pedal: its release removes the flagged keys while it scans the slots they sit in. */
    method HoldPedal(value: byte)
      requires Valid() && value < 128
      modifies this`effects, this`pedal, pressed, pressed.mem, pressed.sorted
      ensures Valid()
      ensures value >= 64 ==> Abs() == Play(old(Abs()), PedalDown) && effects == old(effects)
      ensures value < 64 && KeepsPhysicalKeys(mode) ==> Abs() == Play(old(Abs()), PedalUp)
      ensures value < 64 && !KeepsPhysicalKeys(mode) ==> Abs() == State(old(Abs()).keys, false)
      ensures value < 64 ==>
                effects == old(effects) + PedalEffects(mode, chordDirection, old(pressed.Pool()), old(Abs()).keys)
    {
      hide *;
      PedalMoved();
      if value >= 64 {
        pedal := true;
        Opened();
        return;
      }
      pedal := false;
      Opened();
      PedalMoved();
      Sweep();
      Opened();
      if KeepsPhysicalKeys(mode) {
        AllSwept();
      }
    }

    /** The pedal on values. */
    lemma PedalMoved()
      requires Valid()
      ensures pressed.Valid() && Abs() == State(pressed.Keys(), pedal) && Plain() == Unflagged(pressed.Keys())
      ensures WellFormed(State(pressed.Keys(), true)) && WellFormed(State(pressed.Keys(), false))
      ensures pressed.capacity == CAPACITY && Accepted(pressed.Keys(), rejected)
      ensures Play(Abs(), PedalDown) == State(pressed.Keys(), true)
      ensures Play(Abs(), PedalUp) == State(Plain(), false)
      ensures Outcome(1) == effects + PedalEffects(mode, chordDirection, pressed.Pool(), pressed.Keys())
    {
      hide PedalEffects;
    }

    ghost function Plain(): seq<Key>
      requires Valid()
      reads this, pressed, pressed.mem, pressed.sorted
    {
      Unflagged(pressed.Keys())
    }

    /** What the pedal's scan will have called in the end, once it has come to a slot. */
    ghost function Outcome(slot: nat): seq<Effect>
      requires Valid()
      reads this, pressed, pressed.mem, pressed.sorted
    {
      effects + PedalEffects(mode, chordDirection, pressed.Pool(), pressed.Keys(), slot)
    }

    ghost predicate SweptTo(slot: nat)
      requires Valid()
      reads this, pressed, pressed.mem, pressed.sorted
    {
      Swept(mode, pressed.Pool(), slot)
    }

    method Sweep()
      requires Valid() && !pedal
      modifies this`effects, this`pedal, pressed, pressed.mem, pressed.sorted
      ensures Valid() && !pedal && SweptTo(CAPACITY + 1)
      ensures Plain() == old(Plain()) && (!KeepsPhysicalKeys(mode) ==> Abs() == old(Abs()))
      ensures effects == old(Outcome(1))
    {
      hide *;
      StartSweep();
      for i := 1 to CAPACITY + 1
        invariant Valid() && pressed.Valid() && !pedal && SweptTo(i)
        invariant Plain() == old(Plain()) && (!KeepsPhysicalKeys(mode) ==> Abs() == old(Abs()))
        invariant Outcome(i) == old(Outcome(1))
      {
        SweepSlot(i);
      }
      NothingLeft();
    }

    lemma StartSweep()
      requires Valid()
      ensures pressed.Valid() && SweptTo(1) && CAPACITY == 12
    {
    }

    /** One step of the pedal's scan. */
    method SweepSlot(slot: byte)
      requires Valid() && !pedal && 1 <= slot as int <= CAPACITY && SweptTo(slot as int)
      modifies this`effects, this`pedal, pressed, pressed.mem, pressed.sorted
      ensures Valid() && pressed.Valid() && !pedal && SweptTo(slot as int + 1)
      ensures Plain() == old(Plain()) && (!KeepsPhysicalKeys(mode) ==> Abs() == old(Abs()))
      ensures Outcome(slot as int + 1) == old(Outcome(slot as int))
    {
      hide PedalEffects, ReleaseEffects, Swept, IsChain, IsSortedIndex, KeysOf, Nodes, WellFormed, Accepted;
      hide Unflagged, Release, Flag, EmptiesSlot;
      var e := pressed.NodeAt(slot);
      if HighBit(e.velocity) {
        FlaggedSlot(slot);
        ghost var pool, keys := pressed.Pool(), pressed.Keys();
        ReleaseFlagged(keys, e.note);
        FlagAgain(keys, e.note);
        NoteOff(e.note);
        if KeepsPhysicalKeys(mode) {
          ReleasedSlot(mode, chordDirection, pool, keys, pressed.Pool(), pressed.Keys(), slot as int);
        } else {
          KeptSlot(mode, chordDirection, pool, keys, pressed.Pool(), slot as int, e.note);
        }
      } else {
        PassedSlot(mode, chordDirection, pressed.Pool(), pressed.Keys(), slot as int);
      }
    }

    lemma AllSwept()
      requires Valid() && SweptTo(CAPACITY + 1) && KeepsPhysicalKeys(mode)
      ensures Plain() == pressed.Keys()
    {
      NoFlaggedKey();
      AllUnflagged(pressed.Keys());
    }

    /** The notes of the flagged slots are the sustained ones, so these are what the pedal's release silences. */
    lemma FlaggedSlotsAreSustained(note: byte)
      requires Valid()
      ensures note in FlaggedSlots(pressed.Pool(), 1) <==> note in SustainedNotes(pressed.Keys())
    {
      InFlaggedSlots(pressed.Pool(), 1, note);
      InSustained(pressed.Keys(), note);
      if s :| 1 <= s < |pressed.Pool()| && HighBit(pressed.Pool()[s].velocity) && pressed.Pool()[s].note == note {
        pressed.SlotHoldsKey(s as byte);
      }
      if k :| 0 <= k < |pressed.Keys()| && IsFlagged(pressed.Keys()[k]) && pressed.Keys()[k].note == note {
        var slot := pressed.KeyHasSlot(k);
      }
    }

    lemma NothingLeft()
      requires Valid() && SweptTo(CAPACITY + 1)
      ensures Outcome(CAPACITY + 1) == effects
    {
      if KeepsPhysicalKeys(mode) {
        AllSwept();
      }
    }

    lemma FlaggedSlot(slot: byte)
      requires Valid() && 1 <= slot as int <= CAPACITY && HighBit(pressed.Pool()[slot].velocity)
      ensures pressed.Pool()[slot].note < 128 && pressed.Pool()[slot].note !in rejected
      ensures forall k :: 0 <= k < |pressed.Keys()| && pressed.Keys()[k].note == pressed.Pool()[slot].note ==>
              IsFlagged(pressed.Keys()[k])
      ensures pressed.Keys() != []
      ensures forall s: byte :: 1 <= s as int <= CAPACITY && s != slot ==>
              pressed.Pool()[s].note != pressed.Pool()[slot].note
    {
      assert pressed.Pool()[slot].note != FREE_SLOT;
      pressed.SlotHoldsKey(slot);
    }

    lemma NoFlaggedKey()
      requires Valid() && forall s :: 1 <= s <= CAPACITY ==> !HighBit(pressed.Pool()[s].velocity)
      ensures forall k :: 0 <= k < |pressed.Keys()| ==> !IsFlagged(pressed.Keys()[k])
    {
      forall k | 0 <= k < |pressed.Keys()| ensures !IsFlagged(pressed.Keys()[k]) {
        var slot := pressed.KeyHasSlot(k);
      }
    }

    lemma AbsentFromSlots(note: byte)
      requires pressed.Valid() && forall s :: 1 <= s <= pressed.capacity ==> pressed.Pool()[s].note != note
      ensures forall k :: 0 <= k < |pressed.Keys()| ==> pressed.Keys()[k].note != note
    {
      forall k | 0 <= k < |pressed.Keys()| ensures pressed.Keys()[k].note != note {
        var slot := pressed.KeyHasSlot(k);
      }
    }
  }
}
