/**
 A whole part: its pressed keys, its voices and its note generator together.

 Key handling records what it calls on the sounding side, and `Perform` carries that out; between the two
 nothing on the sounding side reads the keys.  Over any run of clocks, key events and changes of voices the part
 follows its meaning on values, and the generated notes still on are at most the one that is remembered.
 */
module Part {
  import opened Bytes
  import NS = NoteStack
  import KB = Keyboard
  import PV = PartVoices
  import G = Generator
  import Arp = Arpeggiator

  /**
   `Clock` brings the current step of the note sequence, whether there is one, and whether the arpeggiator's
   pattern has a note; `Pedal` is the hold pedal.
   */
  datatype Event =
    | NoteOn(note: byte, velocity: byte)
    | NoteOff(note: byte)
    | Pedal(value: byte)
    | AllNotesOff
    | AllSoundOff
    | Clock(step: G.NoteStep, hasStep: bool, hasNote: bool, random: byte)
    | Polyphony(mode: PV.PolyphonyMode)
    | Assign(allocation: byte)

  ghost predicate IsMidi(e: Event) {
    match e
    case NoteOn(note, velocity) => note < 128 && velocity < 128
    case NoteOff(note) => note < 128
    case Pedal(value) => value < 128
    case Clock(step, _, _, _) => step.velocity < 128
    case _ => true
  }

  // ---- A part on values ----

  /** The settings that a run keeps. */
  datatype Setup = Setup(mode: KB.Mode, direction: Arp.Direction, octaves: byte, rejected: set<byte>)

  /** The keys, the polyphony mode, the arpeggiator, the remembered note, and what MIDI out was told. */
  datatype State = State(
    keys: KB.State, polyphony: PV.PolyphonyMode, arp: Arp.State, previous: byte, told: seq<PV.Call>)

  function ChordDirection(setup: Setup): bool {
    setup.direction.Chord?
  }

  /** Each key is started and stopped by itself. */
  predicate KeyByKey(setup: Setup) {
    setup.mode.Step? || (setup.mode.Arpeggiator? && setup.direction.Chord?)
  }

  predicate IsPressed(keys: seq<NS.Key>, note: byte) {
    exists k :: 0 <= k < |keys| && keys[k].note == note
  }

  /** The keys after an event, in any mode; LATCH toggles them and keeps no note-offs but as flags. */
  function KeysAfter(keys: KB.State, e: Event, setup: Setup): KB.State {
    match e
    case NoteOn(note, velocity) =>
      if note in setup.rejected then keys
      else if velocity == 0 then KeyUp(keys, note, setup)
      else if setup.mode.ChordSequencer? then keys
      else if setup.mode.Latch? && IsPressed(keys.keys, note) then keys.(keys := NS.Release(keys.keys, note))
      else keys.(keys := NS.Press(keys.keys, KB.CAPACITY, NS.Key(note, velocity)))
    case NoteOff(note) => if note in setup.rejected then keys else KeyUp(keys, note, setup)
    case Pedal(value) =>
      if value >= 64 then KB.Play(keys, KB.PedalDown)
      else if KB.KeepsPhysicalKeys(setup.mode) then KB.Play(keys, KB.PedalUp)
      else KB.State(keys.keys, false)
    case AllNotesOff => if keys.pedal then keys else KB.State([], false)
    case Clock(_, _, _, _) => keys
    case _ => KB.State([], keys.pedal)
  }

  function KeyUp(keys: KB.State, note: byte, setup: Setup): KB.State {
    if KB.KeepsPhysicalKeys(setup.mode) then KB.Play(keys, KB.Up(note)) else keys.(keys := KB.Flag(keys.keys, note))
  }

  /** The notes of the sustained keys, most recent first. */
  function Sustained(keys: seq<NS.Key>): seq<byte> {
    if keys == [] then [] else (if KB.IsFlagged(keys[0]) then [keys[0].note] else []) + Sustained(keys[1..])
  }

  /** What a key event makes sound or fall silent; the pedal's release, key by key, in some order. */
  function Called(before: KB.State, after: KB.State, e: Event, setup: Setup): seq<KB.Effect> {
    match e
    case NoteOn(note, velocity) =>
      if note in setup.rejected then []
      else if velocity == 0 then KB.ReleaseEffects(setup.mode, ChordDirection(setup), before.pedal, after.keys, note)
      else if setup.mode.Step? then [KB.SoundNote(note, velocity)]
      else []
    case NoteOff(note) =>
      if note in setup.rejected then []
      else KB.ReleaseEffects(setup.mode, ChordDirection(setup), before.pedal, after.keys, note)
    case Pedal(value) =>
      if value >= 64 || !KB.KeepsPhysicalKeys(setup.mode) then []
      else if KeyByKey(setup) then KB.SilenceEach(Sustained(before.keys))
      else if before.keys != [] && after.keys == [] then [KB.SilenceAll]
      else []
    case AllNotesOff => if before.pedal then [] else [KB.SilenceAll]
    case _ => []
  }

  function PerformedOne(s: State, effect: KB.Effect, setup: Setup): State {
    match effect
    case SoundNote(note, velocity) => s.(told := s.told + G.On(note, velocity, setup.rejected))
    case SilenceNote(note) => s.(told := s.told + G.Off(note))
    case SilenceAll => s.(previous := 0xff, told := s.told + if ChordDirection(setup) then [] else G.Off(s.previous))
  }

  function Performed(s: State, effects: seq<KB.Effect>, setup: Setup): State {
    if effects == [] then s
    else PerformedOne(Performed(s, effects[..|effects| - 1], setup), effects[|effects| - 1], setup)
  }

  /** A step of the note sequence for the most recent key. */
  function Stepped(s: State, step: G.NoteStep, setup: Setup): State {
    if s.keys.keys == [] then s
    else
      var note := G.Transposed(step, s.keys.keys[0].note);
      s.(previous := if step.gate then note else 0xff,
          told := s.told + G.StepOut(step, note, s.previous, setup.rejected))
  }

  /** A step of the arpeggiator for the pressed keys. */
  ghost function Arpeggiated(s: State, hasNote: bool, random: byte, setup: Setup): State {
    var keys := s.keys.keys;
    if setup.direction.Chord? then
      s.(previous := if keys != [] && hasNote then 60 else 0xff,
         told := s.told + G.ChordOut(s.previous, keys, hasNote, setup.rejected))
    else if keys != [] && hasNote then
      var arp := G.Advanced(setup.direction, |keys|, setup.octaves as nat, s.arp, random);
      var key := G.Selected(setup.direction, keys, arp.step);
      var note := G.PitchOf(key, arp.octave);
      s.(arp := arp, previous := note,
         told := s.told + G.Off(s.previous) + G.On(note, Low7(key.velocity), setup.rejected))
    else s.(previous := 0xff, told := s.told + G.Off(s.previous))
  }

  ghost function Clocked(s: State, e: Event, setup: Setup): State
    requires e.Clock?
  {
    match setup.mode
    case Note => if e.hasStep then Stepped(s, e.step, setup) else s
    case Step | ChordSequencer => s
    case _ => Arpeggiated(s, e.hasNote, e.random, setup)
  }

  ghost function Next(s: State, e: Event, setup: Setup): State {
    match e
    case Clock(_, _, _, _) => Clocked(s, e, setup)
    case Polyphony(mode) =>
      if mode == s.polyphony then s else s.(polyphony := mode, keys := KeysAfter(s.keys, e, setup))
    case _ =>
      var keys := KeysAfter(s.keys, e, setup);
      Performed(s.(keys := keys), Called(s.keys, keys, e, setup), setup)
  }

  ghost function Run(s: State, events: seq<Event>, setup: Setup): State {
    if events == [] then s else Next(Run(s, events[..|events| - 1], setup), events[|events| - 1], setup)
  }

  lemma RunOneMore(s: State, events: seq<Event>, i: nat, setup: Setup)
    requires i < |events|
    ensures Run(s, events[..i + 1], setup) == Next(Run(s, events[..i], setup), events[i], setup)
  {
    assert events[..i + 1][..i] == events[..i];
  }

  // ---- Generated notes on values ----

  /** The note sequence or the arpeggiator plays, and not in chords. */
  predicate Generating(setup: Setup) {
    !setup.direction.Chord? && (setup.mode.Note? || setup.mode.Arpeggiator? || setup.mode.Latch?)
  }

  ghost predicate Tidy(s: State) {
    G.OpenNotes(s.told) <= G.Single(s.previous)
  }

  ghost predicate OnlySilenceAll(effects: seq<KB.Effect>) {
    forall i :: 0 <= i < |effects| ==> effects[i].SilenceAll?
  }

  lemma GeneratorIsSilenced(before: KB.State, after: KB.State, e: Event, setup: Setup)
    requires Generating(setup)
    ensures OnlySilenceAll(Called(before, after, e, setup))
  {
  }

  lemma {:induction false} PerformedIsTidy(s: State, effects: seq<KB.Effect>, setup: Setup)
    requires Tidy(s) && OnlySilenceAll(effects) && !ChordDirection(setup)
    ensures Tidy(Performed(s, effects, setup))
  {
    if effects != [] {
      var before := Performed(s, effects[..|effects| - 1], setup);
      PerformedIsTidy(s, effects[..|effects| - 1], setup);
      G.OffCloses(before.told, before.previous);
      assert effects[|effects| - 1].SilenceAll?;
      hide G.OpenNotes, G.Off;
    }
  }

  lemma SteppedIsTidy(s: State, step: G.NoteStep, setup: Setup)
    requires Tidy(s)
    ensures Tidy(Stepped(s, step, setup))
  {
    if s.keys.keys != [] {
      G.StepIsTidy(s.told, step, G.Transposed(step, s.keys.keys[0].note), s.previous, setup.rejected);
      hide G.OpenNotes, G.StepOut;
    }
  }

  lemma ArpeggiatedIsTidy(s: State, hasNote: bool, random: byte, setup: Setup)
    requires Tidy(s) && !setup.direction.Chord?
    ensures Tidy(Arpeggiated(s, hasNote, random, setup))
  {
    hide G.OpenNotes, G.On, G.Off, G.Advanced, G.Selected, G.PitchOf;
    G.OffCloses(s.told, s.previous);
    var r := Arpeggiated(s, hasNote, random, setup);
    if s.keys.keys != [] && hasNote {
      var key := G.Selected(setup.direction, s.keys.keys, r.arp.step);
      G.OnOpens(s.told + G.Off(s.previous), r.previous, Low7(key.velocity), setup.rejected);
    }
  }

  lemma NextIsTidy(s: State, e: Event, setup: Setup)
    requires Tidy(s) && Generating(setup)
    ensures Tidy(Next(s, e, setup))
  {
    hide Tidy, Stepped, Arpeggiated, Performed, Called, KeysAfter;
    if e.Clock? {
      SteppedIsTidy(s, e.step, setup);
      ArpeggiatedIsTidy(s, e.hasNote, e.random, setup);
    } else {
      var keys := KeysAfter(s.keys, e, setup);
      TidyAlone(s, s.(keys := keys));
      TidyAlone(s, s.(keys := keys, polyphony := if e.Polyphony? then e.mode else s.polyphony));
      GeneratorIsSilenced(s.keys, keys, e, setup);
      PerformedIsTidy(s.(keys := keys), Called(s.keys, keys, e, setup), setup);
    }
  }

  lemma TidyAlone(s: State, t: State)
    requires Tidy(s) && t.told == s.told && t.previous == s.previous
    ensures Tidy(t)
  {
  }

  /** Over any run of clocks and key events the generated notes still on are at most the one remembered. */
  lemma {:induction false} RunIsTidy(s: State, events: seq<Event>, setup: Setup)
    requires Tidy(s) && Generating(setup)
    ensures Tidy(Run(s, events, setup))
  {
    if events != [] {
      RunIsTidy(s, events[..|events| - 1], setup);
      NextIsTidy(Run(s, events[..|events| - 1], setup), events[|events| - 1], setup);
    }
  }

  // ---- The order of what is told ----

  /** The states agree, and so do the notes still on; what was told may be in another order. */
  ghost predicate Alike(s: State, t: State) {
    s.(told := t.told) == t && G.OpenNotes(s.told) == G.OpenNotes(t.told)
  }

  lemma PerformedOneAlike(s: State, t: State, effect: KB.Effect, setup: Setup)
    requires Alike(s, t)
    ensures Alike(PerformedOne(s, effect, setup), PerformedOne(t, effect, setup))
  {
    hide G.OpenNotes, G.On, G.Off;
    match effect
    case SoundNote(note, velocity) => G.SameOpen(s.told, t.told, G.On(note, velocity, setup.rejected));
    case SilenceNote(note) => G.SameOpen(s.told, t.told, G.Off(note));
    case SilenceAll => G.SameOpen(s.told, t.told, if ChordDirection(setup) then [] else G.Off(s.previous));
  }

  lemma {:induction false} PerformedAlike(s: State, t: State, effects: seq<KB.Effect>, setup: Setup)
    requires Alike(s, t)
    ensures Alike(Performed(s, effects, setup), Performed(t, effects, setup))
  {
    hide Alike, PerformedOne;
    if effects != [] {
      var init := effects[..|effects| - 1];
      PerformedAlike(s, t, init, setup);
      PerformedOneAlike(Performed(s, init, setup), Performed(t, init, setup), effects[|effects| - 1], setup);
    }
  }

  lemma SteppedAlike(s: State, t: State, step: G.NoteStep, setup: Setup)
    requires Alike(s, t)
    ensures Alike(Stepped(s, step, setup), Stepped(t, step, setup))
  {
    hide G.OpenNotes, G.StepOut, G.Transposed;
    if s.keys.keys != [] {
      var note := G.Transposed(step, s.keys.keys[0].note);
      G.SameOpen(s.told, t.told, G.StepOut(step, note, s.previous, setup.rejected));
    }
  }

  lemma ArpeggiatedAlike(s: State, t: State, hasNote: bool, random: byte, setup: Setup)
    requires Alike(s, t)
    ensures Alike(Arpeggiated(s, hasNote, random, setup), Arpeggiated(t, hasNote, random, setup))
  {
    hide G.OpenNotes, G.On, G.Off, G.ChordOut, G.Advanced, G.Selected, G.PitchOf;
    var r := Arpeggiated(s, hasNote, random, setup);
    G.SameOpen(s.told, t.told, G.ChordOut(s.previous, s.keys.keys, hasNote, setup.rejected));
    G.SameOpen(s.told, t.told, G.Off(s.previous));
    var key := G.Selected(setup.direction, s.keys.keys, r.arp.step);
    G.SameOpen(s.told + G.Off(s.previous), t.told + G.Off(s.previous),
        G.On(r.previous, Low7(key.velocity), setup.rejected));
  }

  /** Whatever happens next does not depend on what was told, nor on its order. */
  lemma NextAlike(s: State, t: State, e: Event, setup: Setup)
    requires Alike(s, t)
    ensures Alike(Next(s, e, setup), Next(t, e, setup))
  {
    hide Stepped, Arpeggiated, Performed, Called, KeysAfter, G.OpenNotes;
    if e.Clock? {
      SteppedAlike(s, t, e.step, setup);
      ArpeggiatedAlike(s, t, e.hasNote, e.random, setup);
    } else {
      var keys := KeysAfter(s.keys, e, setup);
      PerformedAlike(s.(keys := keys), t.(keys := keys), Called(s.keys, keys, e, setup), setup);
    }
  }

  /** Switching notes off one by one: the order does not matter. */
  lemma {:induction false} SilencedEach(s: State, notes: seq<byte>, setup: Setup)
    requires forall i :: 0 <= i < |notes| ==> notes[i] < 128
    ensures var r := Performed(s, KB.SilenceEach(notes), setup);
            r.(told := s.told) == s && G.OpenNotes(r.told) == G.OpenNotes(s.told) - set note | note in notes
  {
    hide G.OpenNotes;
    if notes != [] {
      var init, last := notes[..|notes| - 1], notes[|notes| - 1];
      SilencedEach(s, init, setup);
      assert KB.SilenceEach(notes)[..|notes| - 1] == KB.SilenceEach(init);
      G.OffCloses(Performed(s, KB.SilenceEach(init), setup).told, last);
      assert notes == init + [last];
    } else {
      assert s.(told := s.told) == s;
    }
  }

  lemma {:induction false} SustainedIs(keys: seq<NS.Key>, note: byte)
    ensures note in Sustained(keys) <==> note in KB.SustainedNotes(keys)
  {
    if keys != [] {
      SustainedIs(keys[1..], note);
    }
  }

  lemma SilencedAlike(s: State, a: seq<byte>, b: seq<byte>, setup: Setup)
    requires forall note :: note in a <==> note in b
    requires forall i :: 0 <= i < |a| ==> a[i] < 128
    ensures Alike(Performed(s, KB.SilenceEach(a), setup), Performed(s, KB.SilenceEach(b), setup))
  {
    hide G.OpenNotes, Performed, KB.SilenceEach;
    forall i | 0 <= i < |b| ensures b[i] < 128 {
      assert b[i] in a;
    }
    SilencedEach(s, a, setup);
    SilencedEach(s, b, setup);
    assert (set note | note in a) == set note | note in b;
  }

  lemma ReleasedEach(s: State, value: byte, setup: Setup)
    requires value < 64 && KeyByKey(setup)
    ensures var keys := KeysAfter(s.keys, Pedal(value), setup);
            Next(s, Pedal(value), setup) == Performed(s.(keys := keys), KB.SilenceEach(Sustained(s.keys.keys)), setup)
  {
    hide Performed, Sustained, KB.SilenceEach, KeysAfter;
  }

  /** The pedal's release silences the flagged slots, which hold the sustained keys. */
  lemma PedalAlike(s: State, slots: seq<byte>, value: byte, setup: Setup)
    requires value < 64 && KeyByKey(setup) && forall i :: 0 <= i < |slots| ==> slots[i] < 128
    requires forall note :: note in slots <==> note in KB.SustainedNotes(s.keys.keys)
    ensures var keys := KeysAfter(s.keys, Pedal(value), setup);
            Alike(Performed(s.(keys := keys), KB.SilenceEach(slots), setup), Next(s, Pedal(value), setup))
  {
    hide *;
    ReleasedEach(s, value, setup);
    forall note: byte ensures note in Sustained(s.keys.keys) <==> note in slots {
      SustainedIs(s.keys.keys, note);
    }
    SilencedAlike(s.(keys := KeysAfter(s.keys, Pedal(value), setup)), slots, Sustained(s.keys.keys), setup);
  }

  // ---- What key handling calls ----

  ghost predicate OnMidiNotes(effects: seq<KB.Effect>) {
    forall i :: 0 <= i < |effects| ==> !effects[i].SilenceAll? ==> effects[i].note < 128
  }

  predicate IsKeyEvent(e: Event) {
    e.NoteOn? || e.NoteOff? || e.Pedal? || e.AllNotesOff?
  }

  /** The calls of the pedal's release name notes of flagged slots. */
  lemma PedalCalls(mode: KB.Mode, chordDirection: bool, pool: seq<NS.Node>, keys: seq<NS.Key>)
    requires forall i :: 0 <= i < |KB.FlaggedSlots(pool, 1)| ==> KB.FlaggedSlots(pool, 1)[i] < 128
    ensures OnMidiNotes(KB.PedalEffects(mode, chordDirection, pool, keys))
    ensures KB.PedalEffects(mode, chordDirection, pool, keys) ==
            if !KB.KeepsPhysicalKeys(mode) then []
            else if mode.Step? || (mode.Arpeggiator? && chordDirection) then KB.SilenceEach(KB.FlaggedSlots(pool, 1))
            else if keys != [] && KB.Unflagged(keys) == [] then [KB.SilenceAll]
            else []
  {
  }

  /** What the pedal's release silences are MIDI notes. */
  lemma SustainedAreMidi(keys: KB.Keys)
    requires keys.Valid()
    ensures forall i :: 0 <= i < |KB.FlaggedSlots(keys.pressed.Pool(), 1)| ==>
            KB.FlaggedSlots(keys.pressed.Pool(), 1)[i] < 128
  {
    var notes := KB.FlaggedSlots(keys.pressed.Pool(), 1);
    forall i | 0 <= i < |notes| ensures notes[i] < 128 {
      keys.FlaggedSlotsAreSustained(notes[i]);
      KB.InSustained(keys.pressed.Keys(), notes[i]);
    }
  }

  lemma KeysOpened(keys: KB.Keys)
    requires keys.Valid()
    ensures keys.pressed.Valid() && keys.Abs() == KB.State(keys.pressed.Keys(), keys.pedal)
    ensures |keys.pressed.Keys()| == keys.pressed.size as int <= 12 && NS.DistinctNotes(keys.pressed.Keys())
    ensures forall k :: 0 <= k < |keys.pressed.Keys()| ==> keys.pressed.Keys()[k].note < 128
  {
  }

  /** A key press on values. */
  lemma PressedOn(keys: KB.State, note: byte, velocity: byte, setup: Setup)
    requires note !in setup.rejected
    ensures KB.KeepsPhysicalKeys(setup.mode) ==>
            KeysAfter(keys, NoteOn(note, velocity), setup) == KB.Play(keys, KB.Down(note, velocity))
    ensures velocity == 0 && !KB.KeepsPhysicalKeys(setup.mode) ==>
              KeysAfter(keys, NoteOn(note, velocity), setup) == keys.(keys := KB.Flag(keys.keys, note))
    ensures velocity != 0 && setup.mode.ChordSequencer? ==> KeysAfter(keys, NoteOn(note, velocity), setup) == keys
    ensures velocity != 0 && setup.mode.Latch? ==>
              KeysAfter(keys, NoteOn(note, velocity), setup) ==
              keys.(keys := if exists k :: 0 <= k < |keys.keys| && keys.keys[k].note == note
                            then NS.Release(keys.keys, note)
                            else NS.Press(keys.keys, KB.CAPACITY, NS.Key(note, velocity)))
    ensures KB.KeepsPhysicalKeys(setup.mode) || setup.mode.Latch? || setup.mode.ChordSequencer?
  {
  }

  lemma ReleasedUp(keys: KB.State, note: byte, setup: Setup)
    requires note !in setup.rejected
    ensures KeysAfter(keys, NoteOff(note), setup) ==
            if KB.KeepsPhysicalKeys(setup.mode) then KB.Play(keys, KB.Up(note))
            else keys.(keys := KB.Flag(keys.keys, note))
  {
  }

  lemma Rejected(keys: KB.State, note: byte, velocity: byte, setup: Setup)
    requires note in setup.rejected
    ensures KeysAfter(keys, NoteOn(note, velocity), setup) == keys
    ensures Called(keys, keys, NoteOn(note, velocity), setup) == []
    ensures KeysAfter(keys, NoteOff(note), setup) == keys && Called(keys, keys, NoteOff(note), setup) == []
    ensures OnMidiNotes([])
  {
  }

  lemma CalledByKey(before: KB.State, after: KB.State, note: byte, velocity: byte, setup: Setup)
    requires note !in setup.rejected && note < 128
    ensures var release := KB.ReleaseEffects(setup.mode, setup.direction.Chord?, before.pedal, after.keys, note);
            && Called(before, after, NoteOff(note), setup) == release
            && Called(before, after, NoteOn(note, velocity), setup) ==
               (if velocity == 0 then release else if setup.mode.Step? then [KB.SoundNote(note, velocity)] else [])
            && OnMidiNotes(release)
    ensures OnMidiNotes([KB.SoundNote(note, velocity)]) && OnMidiNotes([])
  {
  }

  lemma PedalMoves(keys: KB.State, pool: seq<NS.Node>, value: byte, setup: Setup)
    ensures KeysAfter(keys, Pedal(value), setup) ==
            if value >= 64 then KB.Play(keys, KB.PedalDown)
            else if KB.KeepsPhysicalKeys(setup.mode) then KB.Play(keys, KB.PedalUp)
            else KB.State(keys.keys, false)
    ensures value >= 64 || !KeyByKey(setup) ==>
              Called(keys, KeysAfter(keys, Pedal(value), setup), Pedal(value), setup) ==
              if value >= 64 then [] else KB.PedalEffects(setup.mode, setup.direction.Chord?, pool, keys.keys)
    ensures value < 64 && KeyByKey(setup) ==>
              KB.PedalEffects(setup.mode, setup.direction.Chord?, pool, keys.keys) ==
                  KB.SilenceEach(KB.FlaggedSlots(pool, 1))
    ensures OnMidiNotes([])
  {
  }

  lemma AllOff(keys: KB.State, setup: Setup)
    ensures KeysAfter(keys, AllNotesOff, setup) == if keys.pedal then keys else KB.State([], false)
    ensures Called(keys, KeysAfter(keys, AllNotesOff, setup), AllNotesOff, setup) ==
            if keys.pedal then [] else [KB.SilenceAll]
    ensures OnMidiNotes([KB.SilenceAll]) && OnMidiNotes([])
  {
  }

  /** The keys' own side of a key event, and what it calls. */
  method HandleKeys(keys: KB.Keys, e: Event, ghost setup: Setup) returns (effects: seq<KB.Effect>)
    requires keys.Valid() && IsKeyEvent(e) && IsMidi(e)
    requires setup.mode == keys.mode && setup.rejected == keys.rejected && setup.direction.Chord? == keys.chordDirection
    modifies keys`effects, keys`pedal, keys.pressed, keys.pressed.mem, keys.pressed.sorted
    ensures keys.Valid() && keys.Abs() == KeysAfter(old(keys.Abs()), e, setup)
    ensures !(e.Pedal? && e.value < 64 && KeyByKey(setup)) ==>
              effects == Called(old(keys.Abs()), keys.Abs(), e, setup)
    ensures e.Pedal? && e.value < 64 && KeyByKey(setup) ==>
              effects == KB.SilenceEach(KB.FlaggedSlots(old(keys.pressed.Pool()), 1))
    ensures OnMidiNotes(effects)
  {
    hide *;
    KeysOpened(keys);
    MidiEvent(e);
    var since := |keys.effects|;
    match e
    case NoteOn(note, velocity) =>
      keys.NoteOn(note, velocity);
      effects := keys.effects[since..];
      KeysOpened(keys);
      if note in keys.rejected {
        Rejected(old(keys.Abs()), note, velocity, setup);
      } else {
        PressedOn(old(keys.Abs()), note, velocity, setup);
        CalledByKey(old(keys.Abs()), keys.Abs(), note, velocity, setup);
      }
    case NoteOff(note) =>
      keys.NoteOff(note);
      effects := keys.effects[since..];
      KeysOpened(keys);
      if note in keys.rejected {
        Rejected(old(keys.Abs()), note, 0, setup);
      } else {
        ReleasedUp(old(keys.Abs()), note, setup);
        CalledByKey(old(keys.Abs()), keys.Abs(), note, 0, setup);
      }
    case Pedal(value) =>
      SustainedAreMidi(keys);
      PedalCalls(keys.mode, keys.chordDirection, keys.pressed.Pool(), keys.pressed.Keys());
      PedalMoves(keys.Abs(), keys.pressed.Pool(), value, setup);
      keys.HoldPedal(value);
      effects := keys.effects[since..];
    case AllNotesOff =>
      AllOff(keys.Abs(), setup);
      keys.AllNotesOff();
      effects := keys.effects[since..];
      KeysOpened(keys);
  }

  lemma PerformedAs(s: State, effect: KB.Effect, setup: Setup)
    ensures PerformedOne(s, effect, setup) ==
            match effect
            case SoundNote(note, velocity) => s.(told := s.told + G.On(note, velocity, setup.rejected))
            case SilenceNote(note) => s.(told := s.told + G.Off(note))
            case SilenceAll =>
              s.(previous := 0xff, told := s.told + if setup.direction.Chord? then [] else G.Off(s.previous))
  {
  }

  lemma NonePerformed(s: State, setup: Setup)
    ensures Performed(s, [], setup) == s
  {
  }

  lemma PerformedOneMore(s: State, effects: seq<KB.Effect>, i: nat, setup: Setup)
    requires i < |effects|
    ensures Performed(s, effects[..i + 1], setup) == PerformedOne(Performed(s, effects[..i], setup), effects[i], setup)
  {
    assert effects[..i + 1][..i] == effects[..i];
  }

  lemma EachCall(effects: seq<KB.Effect>, i: nat)
    requires i < |effects|
    ensures OnMidiNotes(effects) && !effects[i].SilenceAll? ==> effects[i].note < 128
    ensures OnlySilenceAll(effects) ==> effects[i].SilenceAll?
  {
  }

  /** The pedal's release where each key is stopped by itself. */
  predicate ReleasesEach(e: Event, setup: Setup) {
    e.Pedal? && e.value < 64 && KeyByKey(setup)
  }

  /** The chord sequencer's own clock, which presses and releases keys, is not part of this model. */
  ghost predicate IsHandled(e: Event, setup: Setup) {
    IsMidi(e) && (e.Clock? ==> !setup.mode.ChordSequencer?)
  }

  lemma Handled(e: Event, setup: Setup)
    requires IsHandled(e, setup)
    ensures IsMidi(e)
    ensures e.NoteOn? ==> e.note < 128 && e.velocity < 128
    ensures e.NoteOff? ==> e.note < 128
    ensures e.Pedal? ==> e.value < 128
    ensures e.Clock? ==> e.step.velocity < 128 && !setup.mode.ChordSequencer?
  {
  }

  lemma OnKeys(s: State, keys: KB.State, e: Event, setup: Setup)
    requires IsKeyEvent(e) && keys == KeysAfter(s.keys, e, setup)
    ensures Next(s, e, setup) == Performed(s.(keys := keys), Called(s.keys, keys, e, setup), setup)
    ensures ReleasesEach(e, setup) <==> e.Pedal? && e.value < 64 && KeyByKey(setup)
    ensures Generating(setup) ==> !KeyByKey(setup) && OnlySilenceAll(Called(s.keys, keys, e, setup))
  {
  }

  /** Events that forget the keys whatever the pedal does. */
  lemma Forgotten(s: State, e: Event, setup: Setup)
    requires e.AllSoundOff? || e.Polyphony? || e.Assign?
    ensures Next(s, e, setup) ==
            if e.Polyphony? && e.mode == s.polyphony then s
            else s.(keys := KB.State([], s.keys.pedal), polyphony := if e.Polyphony? then e.mode else s.polyphony)
  {
  }

  lemma ClockedAs(s: State, step: G.NoteStep, hasStep: bool, hasNote: bool, random: byte, setup: Setup)
    ensures Next(s, Clock(step, hasStep, hasNote, random), setup) ==
            if setup.mode.Note? then
              if !hasStep || s.keys.keys == [] then s
              else
                var note := G.Transposed(step, s.keys.keys[0].note);
                s.(previous := if step.gate then note else 0xff,
                   told := s.told + G.StepOut(step, note, s.previous, setup.rejected))
            else if setup.mode.Step? || setup.mode.ChordSequencer? then s
            else Arpeggiated(s, hasNote, random, setup)
    ensures Generating(setup) ==> !setup.direction.Chord?
  {
  }

  lemma NoneRun(s: State, setup: Setup)
    ensures Run(s, [], setup) == s
  {
  }

  lemma MidiEvent(e: Event)
    requires IsKeyEvent(e) && IsMidi(e)
    ensures e.NoteOn? || e.NoteOff? || e.Pedal? || e.AllNotesOff?
    ensures e.NoteOn? ==> e.note < 128 && e.velocity < 128
    ensures e.NoteOff? ==> e.note < 128
    ensures e.Pedal? ==> e.value < 128
  {
  }

  // ---- The part ----

  class Part {
    const keys: KB.Keys
    const generator: G.NoteGenerator

    ghost function Repr(): set<object> {
      {this, keys, keys.pressed, keys.pressed.mem, keys.pressed.sorted} + generator.Repr()
    }

    ghost predicate Valid()
      reads Repr()
    {
      && keys !in generator.Repr() && keys.pressed !in generator.Repr()
      && keys.pressed.mem !in generator.Repr() && keys.pressed.sorted !in generator.Repr()
      && keys.Valid() && generator.Valid()
      && keys.rejected == generator.voices.rejected
      && keys.chordDirection == generator.direction.Chord?
    }

    ghost function Settings(): Setup
      reads keys`mode, keys`rejected, generator`direction, generator`octaves
    {
      Setup(keys.mode, generator.direction, generator.octaves, keys.rejected)
    }

    ghost function Abs(): State
      requires Valid()
      reads Repr()
    {
      State(keys.Abs(), generator.voices.mode, generator.arp.Abs(), generator.previous,
          G.MidiOut(generator.voices.calls))
    }

    /** A generator plays, and no generated note is on but the remembered one. */
    ghost predicate InHand()
      requires Valid()
      reads Repr()
    {
      Generating(Settings()) && generator.Tidy() && generator.Clean()
    }

    /** What `Valid` says. */
    lemma Opened()
      requires Valid()
      ensures keys.Valid() && generator.Valid() && keys.rejected == generator.voices.rejected
      ensures keys.chordDirection == generator.direction.Chord? == Settings().direction.Chord?
      ensures Settings() == Setup(keys.mode, generator.direction, generator.octaves, keys.rejected)
      ensures Abs() == State(keys.Abs(), generator.voices.mode, generator.arp.Abs(), generator.previous,
                             G.MidiOut(generator.voices.calls))
      ensures InHand() <==> Generating(Settings()) && generator.Tidy() && generator.Clean()
      ensures InHand() ==> !Settings().direction.Chord?
      ensures Repr() == {this, keys, keys.pressed, keys.pressed.mem, keys.pressed.sorted} + generator.Repr()
      ensures keys !in generator.Repr() && keys.pressed !in generator.Repr()
      ensures keys.pressed.mem !in generator.Repr() && keys.pressed.sorted !in generator.Repr()
    {
    }

    lemma Ready()
      requires keys.Valid() && generator.Valid() && keys.rejected == generator.voices.rejected
      requires keys.chordDirection == generator.direction.Chord?
      requires keys !in generator.Repr() && keys.pressed !in generator.Repr()
      requires keys.pressed.mem !in generator.Repr() && keys.pressed.sorted !in generator.Repr()
      ensures Valid()
    {
    }

    constructor ()
      ensures Valid() && fresh(Repr()) && generator.Tidy() && generator.Clean()
      ensures Abs().keys == KB.State([], false) && Abs().told == []
    {
      hide *;
      var stack := new KB.Keys();
      var notes := new G.NoteGenerator();
      keys, generator := stack, notes;
      new;
      Ready();
      Opened();
      assert G.MidiOut([]) == [] by {
        G.NoneTold();
      }
    }

    /** Carries out one call of key handling. */
    method PerformOne(effect: KB.Effect)
      requires Valid() && (!effect.SilenceAll? ==> effect.note < 128)
      modifies generator`previous, generator.voices`calls, generator.voices.mono, generator.voices.mono.mem
      modifies generator.voices.mono.sorted, generator.voices.poly`cyclic, generator.voices.poly.mem
      ensures Valid() && Abs() == PerformedOne(old(Abs()), effect, Settings())
      ensures old(InHand()) && effect.SilenceAll? ==> InHand()
    {
      hide *;
      Opened();
      generator.Opened();
      PerformedAs(Abs(), effect, Settings());
      match effect {
        case SoundNote(note, velocity) =>
          generator.StartNote(note, velocity);
          generator.Ready();
        case SilenceNote(note) =>
          generator.StopNote(note);
          generator.Ready();
        case SilenceAll => generator.AllNotesOff(false);
      }
      Ready();
      Opened();
    }

    /** Carries out what key handling has called, in order. */
    method Perform(effects: seq<KB.Effect>)
      requires Valid() && OnMidiNotes(effects)
      modifies generator`previous, generator.voices`calls, generator.voices.mono, generator.voices.mono.mem
      modifies generator.voices.mono.sorted, generator.voices.poly`cyclic, generator.voices.poly.mem
      ensures Valid() && Abs() == Performed(old(Abs()), effects, Settings())
      ensures old(InHand()) && OnlySilenceAll(effects) ==> InHand()
    {
      hide *;
      Opened();
      generator.Opened();
      NonePerformed(Abs(), Settings());
      assert effects[..0] == [];
      for i := 0 to |effects|
        invariant Valid() && Abs() == Performed(old(Abs()), effects[..i], Settings())
        invariant old(InHand()) && OnlySilenceAll(effects) ==> InHand()
      {
        EachCall(effects, i);
        PerformedOneMore(old(Abs()), effects, i, Settings());
        PerformOne(effects[i]);
      }
      assert effects[..|effects|] == effects;
    }

    /**
     The part does what its meaning on values says; what is told may be in another order if each key is
     stopped by itself.
     */
    ghost predicate Follows(meaning: State)
      requires Valid()
      reads Repr()
    {
      Alike(Abs(), meaning) && (!KeyByKey(Settings()) ==> Abs() == meaning)
    }

    lemma FollowsExactly(meaning: State)
      requires Valid() && Abs() == meaning
      ensures Follows(meaning)
    {
    }

    lemma FollowsAlike(meaning: State)
      requires Valid() && Alike(Abs(), meaning) && KeyByKey(Settings())
      ensures Follows(meaning)
    {
    }

    /** A key event: the keys first, then what they call. */
    method Handle(e: Event)
      requires Valid() && IsKeyEvent(e) && IsMidi(e)
      modifies Repr()
      ensures Valid() && Settings() == old(Settings()) && (old(InHand()) ==> InHand())
      ensures Follows(Next(old(Abs()), e, Settings()))
      ensures !ReleasesEach(e, Settings()) ==> Abs() == Next(old(Abs()), e, Settings())
      ensures ReleasesEach(e, Settings()) ==>
                Abs() == Performed(old(Abs()).(keys := KeysAfter(old(Abs()).keys, e, Settings())),
                                   KB.SilenceEach(KB.FlaggedSlots(old(keys.pressed.Pool()), 1)), Settings())
    {
      hide *;
      Opened();
      KeysOpened(keys);
      generator.Opened();
      ghost var before, slots := Abs(), KB.FlaggedSlots(keys.pressed.Pool(), 1);
      SustainedSlots(slots);
      var effects := HandleKeys(keys, e, Settings());
      Ready();
      Opened();
      OnKeys(before, Abs().keys, e, Settings());
      Perform(effects);
      Opened();
      if ReleasesEach(e, Settings()) {
        PedalAlike(before, slots, e.value, Settings());
        FollowsAlike(Next(before, e, Settings()));
      } else {
        FollowsExactly(Next(before, e, Settings()));
      }
      Ready();
    }

    /** What the pedal's release silences are the sustained notes. */
    lemma SustainedSlots(slots: seq<byte>)
      requires Valid() && slots == KB.FlaggedSlots(keys.pressed.Pool(), 1)
      ensures forall i :: 0 <= i < |slots| ==> slots[i] < 128
      ensures forall note :: note in slots <==> note in KB.SustainedNotes(Abs().keys.keys)
    {
      hide *;
      Opened();
      KeysOpened(keys);
      SustainedAreMidi(keys);
      forall note: byte ensures note in slots <==> note in KB.SustainedNotes(keys.pressed.Keys()) {
        keys.FlaggedSlotsAreSustained(note);
      }
    }

    method NoteOn(note: byte, velocity: byte)
      requires Valid() && note < 128 && velocity < 128
      modifies Repr()
      ensures Valid() && Settings() == old(Settings()) && (old(InHand()) ==> InHand())
      ensures Abs() == Next(old(Abs()), Event.NoteOn(note, velocity), Settings())
    {
      Handle(Event.NoteOn(note, velocity));
    }

    method NoteOff(note: byte)
      requires Valid() && note < 128
      modifies Repr()
      ensures Valid() && Settings() == old(Settings()) && (old(InHand()) ==> InHand())
      ensures Abs() == Next(old(Abs()), Event.NoteOff(note), Settings())
    {
      Handle(Event.NoteOff(note));
    }

    /** If each key is stopped by itself, the pedal's release stops the flagged ones in the order of their slots. */
    method HoldPedal(value: byte)
      requires Valid() && value < 128
      modifies Repr()
      ensures Valid() && Settings() == old(Settings()) && (old(InHand()) ==> InHand())
      ensures Follows(Next(old(Abs()), Pedal(value), Settings()))
      ensures value >= 64 || !KeyByKey(Settings()) ==> Abs() == Next(old(Abs()), Pedal(value), Settings())
      ensures value < 64 && KeyByKey(Settings()) ==>
                Abs() == Performed(old(Abs()).(keys := KB.Play(old(Abs()).keys, KB.PedalUp)),
                                   KB.SilenceEach(KB.FlaggedSlots(old(keys.pressed.Pool()), 1)), Settings())
    {
      Handle(Pedal(value));
    }

    method AllNotesOff()
      requires Valid()
      modifies Repr()
      ensures Valid() && Settings() == old(Settings()) && (old(InHand()) ==> InHand())
      ensures Abs() == Next(old(Abs()), Event.AllNotesOff, Settings())
    {
      Handle(Event.AllNotesOff);
    }

    method AllSoundOff()
      requires Valid()
      modifies Repr()
      ensures Valid() && Settings() == old(Settings()) && (old(InHand()) ==> InHand())
      ensures Abs() == Next(old(Abs()), Event.AllSoundOff, Settings())
      ensures Abs().keys.keys == [] && generator.voices.Sounding() == {}
    {
      hide *;
      Opened();
      generator.Opened();
      KeysOpened(keys);
      Forgotten(Abs(), Event.AllSoundOff, Settings());
      generator.AllSoundOff();
      keys.Forget();
      Ready();
      Opened();
    }

    /** Writing the polyphony mode parameter. */
    method SetPolyphonyMode(mode: PV.PolyphonyMode)
      requires Valid()
      modifies Repr()
      ensures Valid() && Settings() == old(Settings()) && (old(InHand()) ==> InHand())
      ensures Abs() == Next(old(Abs()), Polyphony(mode), Settings())
      ensures mode != old(Abs()).polyphony ==> Abs().keys.keys == [] && generator.voices.Sounding() == {}
    {
      hide *;
      Opened();
      generator.Opened();
      KeysOpened(keys);
      Forgotten(Abs(), Polyphony(mode), Settings());
      var changed := generator.voices.mode != mode;
      generator.SetPolyphonyMode(mode);
      if changed {
        keys.Forget();
      }
      Ready();
      Opened();
    }

    method AssignVoices(allocation: byte)
      requires Valid()
      modifies Repr()
      ensures Valid() && Settings() == old(Settings()) && (old(InHand()) ==> InHand())
      ensures Abs() == Next(old(Abs()), Assign(allocation), Settings())
      ensures Abs().keys.keys == [] && generator.voices.Sounding() == {}
    {
      hide *;
      Opened();
      generator.Opened();
      KeysOpened(keys);
      Forgotten(Abs(), Assign(allocation), Settings());
      generator.AssignVoices(allocation);
      keys.Forget();
      Ready();
      Opened();
    }

    /** The generator can read the keys. */
    lemma StackIsApart()
      requires Valid()
      ensures keys.pressed.Valid() && generator.Apart(keys.pressed)
      ensures keys.pressed.size as int == |keys.pressed.Keys()| <= 127
    {
      hide G.NoteGenerator.Repr;
    }

    /** One step of the clock: the note sequence while a key is pressed, or the arpeggiator. */
    method Clock(step: G.NoteStep, hasStep: bool, hasNote: bool, random: byte)
      requires Valid() && !keys.mode.ChordSequencer? && step.velocity < 128
      modifies Repr()
      ensures Valid() && Settings() == old(Settings()) && (old(InHand()) ==> InHand())
      ensures Abs() == Next(old(Abs()), Event.Clock(step, hasStep, hasNote, random), Settings())
      ensures keys.mode.Note? && hasStep && step.gate && old(Abs()).keys.keys != [] ==>
                G.IsTransposed(Abs().previous as int, step, old(Abs()).keys.keys[0].note)
    {
      hide *;
      Opened();
      generator.Opened();
      KeysOpened(keys);
      StackIsApart();
      ClockedAs(Abs(), step, hasStep, hasNote, random, Settings());
      if keys.mode.Note? {
        if hasStep && keys.pressed.size > 0 {
          var recent := keys.pressed.MostRecentNote();
          generator.ClockNoteSequence(recent.note, step);
        }
      } else if !keys.mode.Step? {
        generator.ClockArpeggiator(keys.pressed, hasNote, random);
        ArpeggiatedAs(old(Abs()), hasNote, random);
      }
      Ready();
      Opened();
    }

    /** What the generator plays is what the arpeggiator on values plays. */
    lemma ArpeggiatedAs(before: State, hasNote: bool, random: byte)
      requires generator.direction.Chord? ==>
                 generator.arp.Abs() == before.arp &&
                     generator.PlaysChord(before.previous, before.told, before.keys.keys, hasNote)
      requires !generator.direction.Chord? ==>
                 generator.PlaysMelody(before.arp, before.previous, before.told, before.keys.keys, hasNote, random)
      requires keys.rejected == generator.voices.rejected
      ensures Arpeggiated(before, hasNote, random, Settings()) ==
              before.(arp := generator.arp.Abs(), previous := generator.previous,
                  told := G.MidiOut(generator.voices.calls))
    {
      hide G.Advanced, G.Selected, G.PitchOf, G.On, G.Off, G.MidiOut, G.ChordOut;
    }

    /** One event of whatever kind. */
    method Take(e: Event)
      requires Valid() && IsHandled(e, Settings())
      modifies Repr()
      ensures Valid() && Settings() == old(Settings()) && (old(InHand()) ==> InHand())
      ensures Follows(Next(old(Abs()), e, Settings()))
    {
      hide *;
      Handled(e, Settings());
      Opened();
      match e {
        case Clock(step, hasStep, hasNote, random) => Clock(step, hasStep, hasNote, random);
        case AllSoundOff => AllSoundOff();
        case Polyphony(mode) => SetPolyphonyMode(mode);
        case Assign(allocation) => AssignVoices(allocation);
        case NoteOn(note, velocity) => NoteOn(note, velocity);
        case NoteOff(note) => NoteOff(note);
        case Pedal(value) =>
          HoldPedal(value);
          return;
        case AllNotesOff => AllNotesOff();
      }
      FollowsExactly(Next(old(Abs()), e, Settings()));
    }

    /**
     Over any run of clocks, key events, pedal events and changes of voices, in every mode and polyphony mode, the
     part follows its meaning on values: the pressed keys, the arpeggiator, the remembered note and what MIDI out is
     told.  As long as a generator plays and no chords, the notes still on are at most the one remembered.
     */
    method Play(events: seq<Event>)
      requires Valid() && forall i :: 0 <= i < |events| ==> IsHandled(events[i], Settings())
      modifies Repr()
      ensures Valid() && Settings() == old(Settings()) && (old(InHand()) ==> InHand())
      ensures Follows(Run(old(Abs()), events, Settings()))
    {
      hide *;
      NoneRun(Abs(), Settings());
      FollowsExactly(Abs());
      assert events[..0] == [];
      for i := 0 to |events|
        invariant Valid() && Settings() == old(Settings()) && (old(InHand()) ==> InHand())
        invariant Follows(Run(old(Abs()), events[..i], Settings()))
      {
        ghost var before, meaning := Abs(), Run(old(Abs()), events[..i], Settings());
        RunOneMore(old(Abs()), events, i, Settings());
        FollowsThrough(meaning);
        Take(events[i]);
        FollowsOn(before, meaning, events[i]);
      }
      assert events[..|events|] == events;
    }

    lemma FollowsThrough(meaning: State)
      requires Valid() && Follows(meaning)
      ensures Alike(Abs(), meaning) && (!KeyByKey(Settings()) ==> Abs() == meaning)
    {
    }

    lemma FollowsOn(before: State, meaning: State, e: Event)
      requires Valid() && Alike(before, meaning) && (!KeyByKey(Settings()) ==> before == meaning)
      requires Follows(Next(before, e, Settings()))
      ensures Follows(Next(meaning, e, Settings()))
    {
      hide Next, G.OpenNotes, Valid;
      NextAlike(before, meaning, e, Settings());
    }
  }
}
