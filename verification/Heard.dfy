/**
 What is on at MIDI out, against the player's fingers and against the clock.

 With neither sequencer nor arpeggiator the notes on are those held or sustained; with one of them nothing is on
 once no key is left; and the arpeggiator walks along the line of its keys and octaves, one place a clock.
 */
module Heard {
  import opened Bytes
  import opened Part
  import NS = NoteStack
  import KB = Keyboard
  import PV = PartVoices
  import G = Generator
  import Arp = Arpeggiator

  // ---- STEP: every key sounds by itself ----

  /** Exactly the pressed keys are on, and no generated note is remembered. */
  ghost predicate HeardAsPressed(s: State) {
    G.OpenNotes(s.told) == NS.NotesOf(s.keys.keys) && s.previous == 0xff
  }

  ghost predicate KeysAreSound(s: State, setup: Setup) {
    KB.WellFormed(s.keys) && KB.Accepted(s.keys.keys, setup.rejected)
  }

  /** The event forgets no key without switching its note off: no thirteenth key, and no clearing of pressed ones. */
  predicate ForgetsNone(s: State, e: Event, setup: Setup) {
    match e
    case NoteOn(note, velocity) =>
      note in setup.rejected || velocity == 0 || IsPressed(s.keys.keys, note) || |s.keys.keys| < KB.CAPACITY
    case AllNotesOff => s.keys.pedal || s.keys.keys == []
    case AllSoundOff | Assign(_) => s.keys.keys == []
    case Polyphony(mode) => mode == s.polyphony || s.keys.keys == []
    case _ => true
  }

  lemma OneCall(s: State, effect: KB.Effect, setup: Setup)
    ensures Performed(s, [effect], setup) == PerformedOne(s, effect, setup) && Performed(s, [], setup) == s
  {
    assert [effect][..0] == [];
  }

  lemma PressedIsHeard(s: State, note: byte, velocity: byte, setup: Setup)
    requires setup.mode.Step? && KeysAreSound(s, setup) && HeardAsPressed(s)
    requires note !in setup.rejected && note < 128 && 0 < velocity < 128
    ensures var r := Next(s, NoteOn(note, velocity), setup);
            && KeysAreSound(r, setup)
            && (HeardAsPressed(r) <==> IsPressed(s.keys.keys, note) || |s.keys.keys| < KB.CAPACITY)
  {
    hide *;
    SoundAs(s, setup);
    PressIs(s, note, velocity, setup);
    var key := NS.Key(note, velocity);
    KB.PressKeepsValid(s.keys, key, setup.rejected);
    G.OneMore(s.told, PV.NoteOut(note, velocity));
    PressedNotes(s.keys.keys, key);
    var r := Next(s, NoteOn(note, velocity), setup);
    SoundAs(r, setup);
  }

  lemma SoundAs(s: State, setup: Setup)
    ensures HeardAsPressed(s) <==> G.OpenNotes(s.told) == NS.NotesOf(s.keys.keys) && s.previous == 0xff
    ensures KeysAreSound(s, setup) <==> KB.WellFormed(s.keys) && KB.Accepted(s.keys.keys, setup.rejected)
    ensures KeysAreSound(s, setup) ==> NS.DistinctNotes(s.keys.keys) && |s.keys.keys| <= KB.CAPACITY
    ensures 0 < KB.CAPACITY
  {
  }

  lemma PressIs(s: State, note: byte, velocity: byte, setup: Setup)
    requires setup.mode.Step? && note !in setup.rejected && velocity != 0
    ensures Next(s, NoteOn(note, velocity), setup) ==
            s.(keys := s.keys.(keys := NS.Press(s.keys.keys, KB.CAPACITY, NS.Key(note, velocity))),
               told := s.told + [PV.NoteOut(note, velocity)])
  {
    OneCall(s.(keys := KeysAfter(s.keys, NoteOn(note, velocity), setup)), KB.SoundNote(note, velocity), setup);
    hide NS.Press, Performed;
  }

  /** A press adds its note; if there is no room it loses that of the oldest key. */
  lemma PressedNotes(keys: seq<NS.Key>, key: NS.Key)
    requires NS.DistinctNotes(keys) && |keys| <= KB.CAPACITY
    ensures NS.NotesOf(NS.Press(keys, KB.CAPACITY, key)) == NS.NotesOf(keys) + {key.note} <==>
            IsPressed(keys, key.note) || |keys| < KB.CAPACITY
  {
    var k := NS.ReleaseCases(keys, key.note);
    var others, pressed := NS.Release(keys, key.note), NS.Press(keys, KB.CAPACITY, key);
    NS.ReleaseDrops(keys, key.note);
    if |others| < KB.CAPACITY {
      assert pressed == [key] + others;
      forall n | n in NS.NotesOf(keys) + {key.note} ensures n in NS.NotesOf(pressed) {
        if n != key.note {
          assert n in NS.NotesOf(others);
          var i :| 0 <= i < |others| && others[i].note == n;
          assert pressed[i + 1].note == n;
        } else {
          assert pressed[0].note == n;
        }
      }
      NS.PressAdds(keys, KB.CAPACITY, key);
    } else {
      assert others == keys;
      var oldest := keys[KB.CAPACITY - 1].note;
      assert oldest in NS.NotesOf(keys);
      forall i | 0 <= i < |pressed| ensures pressed[i].note != oldest {
        assert i > 0 ==> pressed[i] == keys[i - 1];
      }
      assert oldest !in NS.NotesOf(pressed);
    }
  }

  /** A note-off, or a press with velocity 0. */
  predicate Releases(e: Event) {
    e.NoteOff? || (e.NoteOn? && e.velocity == 0)
  }

  lemma ReleaseIs(s: State, e: Event, setup: Setup)
    requires setup.mode.Step? && Releases(e) && e.note !in setup.rejected && e.note < 128
    ensures Next(s, e, setup) ==
            if s.keys.pedal then s.(keys := s.keys.(keys := KB.Flag(s.keys.keys, e.note)))
            else s.(keys := s.keys.(keys := NS.Release(s.keys.keys, e.note)), told := s.told + [PV.NoteOut(e.note, 0)])
  {
    OneCall(s.(keys := KeysAfter(s.keys, e, setup)), KB.SilenceNote(e.note), setup);
    hide NS.Release, KB.Flag, Performed;
  }

  lemma FlagKeepsNotes(keys: seq<NS.Key>, note: byte, rejected: set<byte>)
    ensures NS.NotesOf(KB.Flag(keys, note)) == NS.NotesOf(keys)
    ensures KB.Accepted(keys, rejected) ==> KB.Accepted(KB.Flag(keys, note), rejected)
  {
    var flagged := KB.Flag(keys, note);
    forall i | 0 <= i < |keys| ensures flagged[i].note == keys[i].note {
    }
    forall n | n in NS.NotesOf(keys) ensures n in NS.NotesOf(flagged) {
      var i :| 0 <= i < |keys| && keys[i].note == n;
      assert flagged[i].note == n;
    }
  }

  lemma ReleasedIsHeard(s: State, e: Event, setup: Setup)
    requires setup.mode.Step? && KeysAreSound(s, setup) && HeardAsPressed(s)
    requires (e.NoteOn? || e.NoteOff?) && Releases(e) && e.note !in setup.rejected && e.note < 128
    ensures KeysAreSound(Next(s, e, setup), setup) && HeardAsPressed(Next(s, e, setup))
  {
    hide *;
    SoundAs(s, setup);
    ReleaseIs(s, e, setup);
    KB.FlagKeepsWellFormed(s.keys, e.note);
    FlagKeepsNotes(s.keys.keys, e.note, setup.rejected);
    KB.ReleaseStaysWellFormed(s.keys, e.note);
    KB.ReleaseKeepsNotes(s.keys.keys, e.note, setup.rejected);
    NS.ReleaseDrops(s.keys.keys, e.note);
    G.OneMore(s.told, PV.NoteOut(e.note, 0));
    SoundAs(Next(s, e, setup), setup);
  }

  /** Of distinct keys, those that the pedal does not sustain are left by its release. */
  lemma {:induction false} UnsustainedNotes(keys: seq<NS.Key>)
    requires NS.DistinctNotes(keys)
    ensures NS.NotesOf(KB.Unflagged(keys)) == NS.NotesOf(keys) - set note | note in Sustained(keys)
    ensures forall note :: note in Sustained(keys) ==> note in NS.NotesOf(keys)
  {
    if keys != [] {
      var rest := keys[1..];
      UnsustainedNotes(rest);
      assert keys == [keys[0]] + rest;
      FirstNote(keys[0], rest);
      FirstNote(keys[0], KB.Unflagged(rest));
      forall i | 0 <= i < |rest| ensures rest[i].note != keys[0].note {
        assert rest[i] == keys[i + 1];
      }
      assert keys[0].note !in NS.NotesOf(rest);
      hide NS.NotesOf;
      if KB.IsFlagged(keys[0]) {
        assert KB.Unflagged(keys) == KB.Unflagged(rest);
      }
    }
  }

  lemma FirstNote(key: NS.Key, rest: seq<NS.Key>)
    ensures NS.NotesOf([key] + rest) == {key.note} + NS.NotesOf(rest)
  {
    var all := [key] + rest;
    assert all[0] == key;
    forall i | 0 <= i < |rest| ensures rest[i].note in NS.NotesOf(all) {
      assert all[i + 1] == rest[i];
    }
    forall i | 0 <= i < |all| ensures all[i].note in {key.note} + NS.NotesOf(rest) {
      assert i > 0 ==> all[i] == rest[i - 1];
    }
  }

  lemma UnflaggedStays(keys: seq<NS.Key>, rejected: set<byte>)
    requires KB.WellFormed(KB.State(keys, false)) && KB.Accepted(keys, rejected)
    ensures KB.WellFormed(KB.State(KB.Unflagged(keys), false)) && KB.Accepted(KB.Unflagged(keys), rejected)
    ensures forall note :: note in NS.NotesOf(keys) ==> note < 128
  {
    KB.UnflaggedIsHeld(keys);
  }

  lemma PedalIs(s: State, value: byte, setup: Setup)
    requires setup.mode.Step?
    ensures value >= 64 ==> Next(s, Pedal(value), setup) == s.(keys := KB.State(s.keys.keys, true))
    ensures value < 64 ==>
              Next(s, Pedal(value), setup) ==
              Performed(s.(keys := KB.State(KB.Unflagged(s.keys.keys), false)),
                        KB.SilenceEach(Sustained(s.keys.keys)), setup)
  {
    hide Performed, KB.Unflagged, Sustained, KB.SilenceEach;
    if value < 64 {
      ReleasedEach(s, value, setup);
    } else {
      NonePerformed(s.(keys := KB.State(s.keys.keys, true)), setup);
    }
  }

  lemma WhateverThePedal(s: State)
    ensures KB.WellFormed(s.keys) ==>
              KB.WellFormed(KB.State(s.keys.keys, true)) && KB.WellFormed(KB.State(s.keys.keys, false))
  {
  }

  lemma PedalIsHeard(s: State, value: byte, setup: Setup)
    requires setup.mode.Step? && KeysAreSound(s, setup) && HeardAsPressed(s)
    ensures KeysAreSound(Next(s, Pedal(value), setup), setup) && HeardAsPressed(Next(s, Pedal(value), setup))
  {
    hide *;
    SoundAs(s, setup);
    PedalIs(s, value, setup);
    WhateverThePedal(s);
    UnflaggedStays(s.keys.keys, setup.rejected);
    UnsustainedNotes(s.keys.keys);
    forall i | 0 <= i < |Sustained(s.keys.keys)| ensures Sustained(s.keys.keys)[i] < 128 {
      assert Sustained(s.keys.keys)[i] in Sustained(s.keys.keys);
    }
    SilencedEach(s.(keys := KB.State(KB.Unflagged(s.keys.keys), false)), Sustained(s.keys.keys), setup);
    SoundAs(Next(s, Pedal(value), setup), setup);
  }

  lemma OtherwiseIs(s: State, e: Event, setup: Setup)
    requires setup.mode.Step? && s.previous == 0xff && !e.Pedal?
    requires (e.NoteOn? || e.NoteOff?) ==> e.note in setup.rejected
    ensures var r := Next(s, e, setup);
            && r.told == s.told && r.previous == 0xff
            && (r.keys == s.keys || r.keys.keys == [])
            && (r.keys.keys == [] ==> r.keys.keys == s.keys.keys || !ForgetsNone(s, e, setup))
            && (r.keys.keys != [] || s.keys.keys == [] ==> ForgetsNone(s, e, setup))
  {
    OneCall(s, KB.SilenceAll, setup);
    OneCall(s.(keys := KeysAfter(s.keys, e, setup)), KB.SilenceAll, setup);
    assert s.told + [] == s.told;
    hide Performed;
  }

  lemma NothingPressed(keys: seq<NS.Key>, rejected: set<byte>, pedal: bool)
    ensures NS.NotesOf([]) == {} && KB.WellFormed(KB.State([], pedal)) && KB.Accepted([], rejected)
    ensures NS.NotesOf(keys) == {} <==> keys == []
    ensures KB.WellFormed(KB.State(keys, pedal)) <==> KB.WellFormed(KB.State(keys, false))
  {
    if keys != [] {
      assert keys[0].note in NS.NotesOf(keys);
    }
  }

  lemma OtherwiseIsHeard(s: State, e: Event, setup: Setup)
    requires setup.mode.Step? && KeysAreSound(s, setup) && HeardAsPressed(s) && !e.Pedal?
    requires (e.NoteOn? || e.NoteOff?) ==> e.note in setup.rejected
    ensures KeysAreSound(Next(s, e, setup), setup)
    ensures HeardAsPressed(Next(s, e, setup)) <==> ForgetsNone(s, e, setup)
  {
    hide *;
    SoundAs(s, setup);
    OtherwiseIs(s, e, setup);
    var r := Next(s, e, setup);
    NothingPressed(s.keys.keys, setup.rejected, s.keys.pedal);
    NothingPressed(r.keys.keys, setup.rejected, r.keys.pedal);
    SoundAs(r, setup);
  }

  lemma ForgettingPress(s: State, e: Event, setup: Setup)
    ensures e.NoteOn? && e.note !in setup.rejected && e.velocity != 0 ==>
              (ForgetsNone(s, e, setup) <==> IsPressed(s.keys.keys, e.note) || |s.keys.keys| < KB.CAPACITY)
    ensures (e.NoteOn? || e.NoteOff?) && Releases(e) ==> ForgetsNone(s, e, setup)
    ensures e.Pedal? ==> ForgetsNone(s, e, setup)
    ensures Releases(e) <==> e.NoteOff? || (e.NoteOn? && e.velocity == 0)
    ensures IsMidi(e) && e.NoteOn? ==> e.note < 128 && e.velocity < 128
    ensures IsMidi(e) && e.NoteOff? ==> e.note < 128
  {
  }

  /** Every event keeps MIDI out in step with the keys, exactly unless it forgets a key. */
  lemma NextIsHeard(s: State, e: Event, setup: Setup)
    requires setup.mode.Step? && KeysAreSound(s, setup) && HeardAsPressed(s) && IsMidi(e)
    ensures KeysAreSound(Next(s, e, setup), setup)
    ensures HeardAsPressed(Next(s, e, setup)) <==> ForgetsNone(s, e, setup)
  {
    hide *;
    ForgettingPress(s, e, setup);
    if e.Pedal? {
      PedalIsHeard(s, e.value, setup);
    } else if (e.NoteOn? || e.NoteOff?) && e.note !in setup.rejected {
      if e.NoteOn? && e.velocity != 0 {
        PressedIsHeard(s, e.note, e.velocity, setup);
      } else {
        ReleasedIsHeard(s, e, setup);
      }
    } else {
      OtherwiseIsHeard(s, e, setup);
    }
  }

  // ---- STEP: the player's fingers ----

  /** A key event as the player makes it. */
  predicate IsFinger(e: Event, setup: Setup) {
    (e.NoteOn? && e.note !in setup.rejected) || (e.NoteOff? && e.note !in setup.rejected) || e.Pedal?
  }

  function AsFinger(e: Event, setup: Setup): KB.Event
    requires IsFinger(e, setup)
  {
    match e
    case NoteOn(note, velocity) => KB.Down(note, velocity)
    case NoteOff(note) => KB.Up(note)
    case Pedal(value) => if value >= 64 then KB.PedalDown else KB.PedalUp
  }

  /** Where the fingers are after these events. */
  function Fingers(f: KB.Fingers, events: seq<Event>, setup: Setup): KB.Fingers
    requires forall i :: 0 <= i < |events| ==> IsFinger(events[i], setup)
  {
    if events == [] then f
    else KB.Move(Fingers(f, events[..|events| - 1], setup), AsFinger(events[|events| - 1], setup))
  }

  /** The player never holds and sustains more than twelve keys. */
  ghost predicate AlwaysFits(f: KB.Fingers, events: seq<Event>, setup: Setup)
    requires forall i :: 0 <= i < |events| ==> IsFinger(events[i], setup)
  {
    forall n :: 0 <= n < |events| ==> KB.Fits(Fingers(f, events[..n], setup), AsFinger(events[n], setup))
  }

  lemma KeysFollow(s: State, f: KB.Fingers, e: Event, setup: Setup)
    requires setup.mode.Step? && KeysAreSound(s, setup) && KB.Matches(s.keys, f) && IsMidi(e) && IsFinger(e, setup)
    requires KB.Fits(f, AsFinger(e, setup))
    ensures KB.Matches(Next(s, e, setup).keys, KB.Move(f, AsFinger(e, setup))) && ForgetsNone(s, e, setup)
  {
    hide *;
    SoundAs(s, setup);
    StepKeys(s, e, setup);
    KB.EventMatches(s.keys, f, AsFinger(e, setup));
    ForgettingPress(s, e, setup);
    if e.NoteOn? && e.velocity != 0 {
      RoomForAnother(s.keys, f, e.note, e.velocity);
    }
  }

  lemma StepKeys(s: State, e: Event, setup: Setup)
    requires setup.mode.Step? && IsMidi(e) && IsFinger(e, setup)
    ensures Next(s, e, setup).keys == KB.Play(s.keys, AsFinger(e, setup)) && KB.Playable(AsFinger(e, setup))
    ensures e.NoteOn? ==> AsFinger(e, setup) == KB.Down(e.note, e.velocity) && e.note !in setup.rejected
    ensures e.NoteOn? || e.NoteOff? || e.Pedal?
    ensures e.NoteOff? ==> e.note !in setup.rejected
  {
    PerformedKeepsKeys(s.(keys := KeysAfter(s.keys, e, setup)),
        Called(s.keys, KeysAfter(s.keys, e, setup), e, setup), setup);
    hide Performed, Called, NS.Press, NS.Release, KB.Flag, KB.Unflagged;
  }

  lemma {:induction false} PerformedKeepsKeys(s: State, effects: seq<KB.Effect>, setup: Setup)
    ensures Performed(s, effects, setup).keys == s.keys && Performed(s, effects, setup).arp == s.arp
    ensures Performed(s, effects, setup).polyphony == s.polyphony
  {
    if effects != [] {
      PerformedKeepsKeys(s, effects[..|effects| - 1], setup);
    }
  }

  lemma RoomForAnother(keys: KB.State, f: KB.Fingers, note: byte, velocity: byte)
    requires KB.WellFormed(keys) && KB.Matches(keys, f) && velocity != 0 && KB.Fits(f, KB.Down(note, velocity))
    ensures IsPressed(keys.keys, note) || |keys.keys| < KB.CAPACITY
  {
    if !IsPressed(keys.keys, note) {
      KB.OneKeyPerNote(keys.keys);
      KB.NotAmong(keys.keys, note);
    }
  }

  /**
   With neither sequencer nor arpeggiator, over any run of key and pedal events that stays within twelve keys, the
   notes on at MIDI out are those that the player holds and those that the pedal sustains.
   */
  lemma {:induction false} FingersAreHeard(s: State, f: KB.Fingers, events: seq<Event>, setup: Setup)
    requires setup.mode.Step? && KeysAreSound(s, setup) && HeardAsPressed(s) && KB.Matches(s.keys, f)
    requires forall i :: 0 <= i < |events| ==> IsMidi(events[i]) && IsFinger(events[i], setup)
    requires AlwaysFits(f, events, setup)
    ensures var r, moved := Run(s, events, setup), Fingers(f, events, setup);
            && KeysAreSound(r, setup) && HeardAsPressed(r) && KB.Matches(r.keys, moved)
            && G.OpenNotes(r.told) == moved.held + moved.sustained
  {
    hide *;
    if events == [] {
      AtRest(s, f, setup);
    } else {
      var init, e := events[..|events| - 1], events[|events| - 1];
      FitsSoFar(f, events, setup);
      FingersAreHeard(s, f, init, setup);
      var before := Run(s, init, setup);
      KeysFollow(before, Fingers(f, init, setup), e, setup);
      NextIsHeard(before, e, setup);
      OneMore(s, f, events, setup);
    }
    SoundAs(Run(s, events, setup), setup);
    HeldOrSustained(Run(s, events, setup).keys, Fingers(f, events, setup));
  }

  lemma AtRest(s: State, f: KB.Fingers, setup: Setup)
    ensures Run(s, [], setup) == s && Fingers(f, [], setup) == f
  {
  }

  lemma OneMore(s: State, f: KB.Fingers, events: seq<Event>, setup: Setup)
    requires events != [] && forall i :: 0 <= i < |events| ==> IsFinger(events[i], setup)
    ensures var init, e := events[..|events| - 1], events[|events| - 1];
            && Run(s, events, setup) == Next(Run(s, init, setup), e, setup)
            && Fingers(f, events, setup) == KB.Move(Fingers(f, init, setup), AsFinger(e, setup))
  {
    hide Next, KB.Move, AsFinger, IsFinger;
  }

  lemma FitsSoFar(f: KB.Fingers, events: seq<Event>, setup: Setup)
    requires events != [] && forall i :: 0 <= i < |events| ==> IsFinger(events[i], setup)
    requires AlwaysFits(f, events, setup)
    ensures AlwaysFits(f, events[..|events| - 1], setup)
    ensures KB.Fits(Fingers(f, events[..|events| - 1], setup), AsFinger(events[|events| - 1], setup))
  {
    hide KB.Fits, Fingers, AsFinger, IsFinger;
    var init := events[..|events| - 1];
    forall n | 0 <= n < |init| ensures KB.Fits(Fingers(f, init[..n], setup), AsFinger(init[n], setup)) {
      assert init[..n] == events[..n] && init[n] == events[n];
    }
  }

  lemma {:induction false} HeldOrSustainedNotes(keys: seq<NS.Key>)
    ensures NS.NotesOf(keys) == KB.HeldNotes(keys) + KB.SustainedNotes(keys)
  {
    if keys != [] {
      HeldOrSustainedNotes(keys[1..]);
      FirstNote(keys[0], keys[1..]);
      assert keys == [keys[0]] + keys[1..];
    }
  }

  lemma HeldOrSustained(keys: KB.State, f: KB.Fingers)
    requires KB.Matches(keys, f)
    ensures NS.NotesOf(keys.keys) == f.held + f.sustained
  {
    HeldOrSustainedNotes(keys.keys);
  }

  // ---- A generator falls silent with the keys ----

  /** The note sequence or the arpeggiator plays for the keys that are down, and not in chords. */
  predicate PlaysForKeys(setup: Setup) {
    Generating(setup) && KB.KeepsPhysicalKeys(setup.mode)
  }

  /** With no key left no note is remembered. */
  predicate SilentWithoutKeys(s: State) {
    s.keys.keys == [] ==> s.previous == 0xff
  }

  /** Cards are silenced and keys forgotten without a word to the generator. */
  predicate ForgetsKeys(s: State, e: Event) {
    e.AllSoundOff? || e.Assign? || (e.Polyphony? && e.mode != s.polyphony)
  }

  lemma KeyEventSilences(s: State, e: Event, setup: Setup)
    requires PlaysForKeys(setup) && SilentWithoutKeys(s) && IsKeyEvent(e)
    ensures SilentWithoutKeys(Next(s, e, setup)) && !ForgetsKeys(s, e)
  {
    var keys := KeysAfter(s.keys, e, setup);
    var after := s.(keys := keys);
    OneCall(after, KB.SilenceAll, setup);
    OneCall(s, KB.SilenceAll, setup);
    PerformedKeepsKeys(after, Called(s.keys, keys, e, setup), setup);
    FlagKeepsCount(s.keys.keys, e, setup);
    hide Performed, NS.Release, NS.Press, KB.Flag, KB.Unflagged;
  }

  lemma FlagKeepsCount(keys: seq<NS.Key>, e: Event, setup: Setup)
    ensures e.NoteOn? || e.NoteOff? ==> |KB.Flag(keys, e.note)| == |keys|
    ensures e.NoteOn? || e.NoteOff? ==> |NS.Press(keys, KB.CAPACITY, NS.Key(e.note, 1))| > 0
    ensures forall note, velocity :: NS.Press(keys, KB.CAPACITY, NS.Key(note, velocity)) != []
    ensures NS.Release([], 0) == [] && KB.Unflagged([]) == [] && forall note :: NS.Release([], note) == []
  {
  }

  lemma OtherEventSilences(s: State, e: Event, setup: Setup)
    requires PlaysForKeys(setup) && SilentWithoutKeys(s) && !IsKeyEvent(e)
    ensures SilentWithoutKeys(Next(s, e, setup)) <==> (ForgetsKeys(s, e) ==> s.previous == 0xff)
  {
    hide Arp.Advance, G.Selected, G.PitchOf, G.StepOut;
    NonePerformed(s.(keys := KeysAfter(s.keys, e, setup)), setup);
  }

  /**
   Every event leaves the generator silent without keys, exactly unless it forgets them while a note is
   remembered.
   */
  lemma NextIsSilentWithoutKeys(s: State, e: Event, setup: Setup)
    requires PlaysForKeys(setup) && SilentWithoutKeys(s)
    ensures SilentWithoutKeys(Next(s, e, setup)) <==> (ForgetsKeys(s, e) ==> s.previous == 0xff)
  {
    if IsKeyEvent(e) {
      KeyEventSilences(s, e, setup);
    } else {
      OtherEventSilences(s, e, setup);
    }
    hide Next;
  }

  /** Over any run of clocks, key and pedal events no generated note is on once no key is down or sustained. */
  lemma {:induction false} SilenceFollowsKeys(s: State, events: seq<Event>, setup: Setup)
    requires PlaysForKeys(setup) && SilentWithoutKeys(s) && Tidy(s)
    requires forall i :: 0 <= i < |events| ==> events[i].Clock? || IsKeyEvent(events[i])
    ensures var r := Run(s, events, setup);
            SilentWithoutKeys(r) && Tidy(r) && (r.keys.keys == [] ==> G.OpenNotes(r.told) == {})
  {
    hide Next, Tidy, Generating;
    GeneratingFor(setup);
    RunIsTidy(s, events, setup);
    if events != [] {
      var init, e := events[..|events| - 1], events[|events| - 1];
      SilenceFollowsKeys(s, init, setup);
      NextIsSilentWithoutKeys(Run(s, init, setup), e, setup);
    }
    NoneOpen(Run(s, events, setup));
  }

  lemma GeneratingFor(setup: Setup)
    requires PlaysForKeys(setup)
    ensures Generating(setup)
  {
  }

  lemma NoneOpen(s: State)
    requires Tidy(s) && SilentWithoutKeys(s)
    ensures s.keys.keys == [] ==> G.OpenNotes(s.told) == {}
  {
  }

  // ---- The arpeggiator on its line ----

  lemma OneClock(s: State, e: Event, setup: Setup)
    requires e.Clock? && e.hasNote && s.keys.keys != []
    requires (setup.mode.Arpeggiator? || setup.mode.Latch?) && !setup.direction.Chord? && !setup.direction.Random?
    requires G.CanStep(|s.keys.keys|, setup.octaves as nat, s.arp)
    ensures var r := Next(s, e, setup);
            && r.keys == s.keys
            && r.arp == Arp.Advance(setup.direction, |s.keys.keys|, setup.octaves as nat, s.arp)
            && r.previous == G.PitchOf(G.Selected(setup.direction, s.keys.keys, r.arp.step), r.arp.octave)
  {
    hide Arp.Advance, G.Selected, G.PitchOf, G.On, G.Off;
  }

  /**
   While the keys stay as they are, every clock with a note in the pattern moves the arpeggiator one step, and the
   note that the key and the octave there give is the one that is on.
   */
  lemma {:induction false} ClocksWalk(s: State, events: seq<Event>, setup: Setup)
    requires (setup.mode.Arpeggiator? || setup.mode.Latch?) && !setup.direction.Chord? && !setup.direction.Random?
    requires 0 < |s.keys.keys| <= 127 && 0 < setup.octaves <= 127
    requires Arp.InRange(s.arp, |s.keys.keys|, setup.octaves as nat)
    requires forall i :: 0 <= i < |events| ==> events[i].Clock? && events[i].hasNote
    ensures s.arp.heading == 1 || s.arp.heading == -1
    ensures var r := Run(s, events, setup);
            && r.keys == s.keys
            && r.arp == Arp.AfterSteps(setup.direction, |s.keys.keys|, setup.octaves as nat, s.arp, |events|)
            && (events != [] ==>
                  r.previous == G.PitchOf(G.Selected(setup.direction, s.keys.keys, r.arp.step), r.arp.octave))
  {
    hide Next, Arp.Advance, G.Selected, G.PitchOf;
    if events != [] {
      var init, e := events[..|events| - 1], events[|events| - 1];
      ClocksWalk(s, init, setup);
      OneClock(Run(s, init, setup), e, setup);
    }
  }

  /** Upwards the t-th clock is t places on along the line of all keys in all octaves, modulo its length. */
  lemma ClocksSweepUp(s: State, events: seq<Event>, setup: Setup)
    requires (setup.mode.Arpeggiator? || setup.mode.Latch?) && (setup.direction.Up? || setup.direction.AsPlayed?)
    requires 0 < |s.keys.keys| <= 127 && 0 < setup.octaves <= 127
    requires Arp.InRange(s.arp, |s.keys.keys|, setup.octaves as nat) && s.arp.heading == 1
    requires forall i :: 0 <= i < |events| ==> events[i].Clock? && events[i].hasNote
    ensures var r, n := Run(s, events, setup), |s.keys.keys|;
            var line := n * setup.octaves as nat;
            line > 0 && Arp.Position(r.arp, n) == (Arp.Position(s.arp, n) + |events|) % line
  {
    hide *;
    Melodic(setup);
    ClocksWalk(s, events, setup);
    Arp.PositionInRange(s.arp, |s.keys.keys|, setup.octaves as nat);
    Arp.UpSweep(setup.direction, |s.keys.keys|, setup.octaves as nat, s.arp, |events|);
  }

  lemma Melodic(setup: Setup)
    ensures setup.direction.Up? || setup.direction.AsPlayed? ==> !setup.direction.Chord? && !setup.direction.Random?
  {
  }
}
