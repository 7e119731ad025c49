/**
 The note generators of a part, the note sequencer and the arpeggiator: each starts notes on the
 part's voices and remembers the one note it has to stop.

 `Tidy` says that of the notes told to MIDI out none is still on but that note, and `Clean` that nothing
 sounds on the part's own voices but that note; a round robin may leave note 0 sounding, whose note-off
 can find an unused voice instead.  Every operation keeps both in every polyphony mode, in the order in
 which the firmware stops the old note and starts the new one, with the new one first under legato.

 With the CHORD direction there is no such note: each pressed key is started, and stopped by itself.

 When a step is due, which step of the sequence it is, and whether the pattern has a note there, are
 parameters.
 */
module Generator {
  import opened Arithmetic
  import opened Bytes
  import NS = NoteStack
  import PV = PartVoices
  import Arp = Arpeggiator

  /** One step of the note sequence. */
  datatype NoteStep = NoteStep(note: byte, velocity: byte, legato: bool, gate: bool)

  /** The note of a sequence step, transposed by the most recent key. */
  function Transposed(step: NoteStep, key: byte): (note: byte)
    ensures note < 128
  {
    var x := step.note as int + key as int - 60;
    if x < 0 then 0 else if x > 127 then 127 else x
  }

  /** The step moves with the key, and stops at either end of the keyboard. */
  ghost predicate IsTransposed(note: int, step: NoteStep, key: byte) {
    if step.note as int + key as int < 60 then note == 0
    else if step.note as int + key as int > 187 then note == 127
    else note + 60 == step.note as int + key as int
  }

  lemma TransposedMovesWithKey(step: NoteStep, key: byte)
    ensures IsTransposed(Transposed(step, key) as int, step, key)
  {
  }

  /** Drops a pitch by octaves until it is a MIDI note. */
  function Folded(pitch: byte): (note: byte)
    ensures note < 128 && (pitch - note) % 12 == 0 && (note == pitch || note > 115)
    ensures pitch < 128 ==> note == pitch
  {
    if pitch > 127 then Folded(pitch - 12) else pitch
  }

  // ---- What MIDI out hears ----

  /** The notes told to MIDI out, in order. */
  function MidiOut(calls: seq<PV.Call>): (r: seq<PV.Call>) {
    if calls == [] then []
    else MidiOut(calls[..|calls| - 1]) + if calls[|calls| - 1].NoteOut? then [calls[|calls| - 1]] else []
  }

  /** The notes switched on and not yet off again; velocity 0 means off. */
  function OpenNotes(calls: seq<PV.Call>): set<byte> {
    if calls == [] then {}
    else
      var before := OpenNotes(calls[..|calls| - 1]);
      match calls[|calls| - 1]
      case NoteOut(note, velocity) => if velocity == 0 then before - {note} else before + {note}
      case _ => before
  }

  lemma NoneTold()
    ensures MidiOut([]) == [] && OpenNotes([]) == {}
  {
  }

  lemma OneMore(calls: seq<PV.Call>, call: PV.Call)
    ensures MidiOut(calls + [call]) == MidiOut(calls) + if call.NoteOut? then [call] else []
    ensures OpenNotes(calls + [call]) ==
            if !call.NoteOut? then OpenNotes(calls)
            else if call.velocity == 0 then OpenNotes(calls) - {call.note}
            else OpenNotes(calls) + {call.note}
  {
    assert (calls + [call])[..|calls|] == calls;
  }

  lemma {:induction false} QuietCalls(calls: seq<PV.Call>, after: seq<PV.Call>)
    requires PV.AddsQuietly(calls, after)
    ensures MidiOut(after) == MidiOut(calls) && OpenNotes(after) == OpenNotes(calls)
  {
    if |after| == |calls| {
      assert after == calls;
    } else {
      var init, last := after[..|after| - 1], after[|after| - 1];
      QuietCalls(calls, init);
      assert after == init + [last] && !last.NoteOut?;
      OneMore(init, last);
    }
  }

  /** Only the notes told to MIDI out matter for what is open there. */
  lemma {:induction false} OpenByMidiOut(calls: seq<PV.Call>)
    ensures OpenNotes(MidiOut(calls)) == OpenNotes(calls)
  {
    if calls != [] {
      OpenByMidiOut(calls[..|calls| - 1]);
      OneMore(MidiOut(calls[..|calls| - 1]), calls[|calls| - 1]);
      if !calls[|calls| - 1].NoteOut? {
        assert MidiOut(calls) == MidiOut(calls[..|calls| - 1]);
      }
    }
  }

  /** A call to MIDI out followed by commands for cards and forwarded notes. */
  lemma ToldOnce(before: seq<PV.Call>, note: byte, velocity: byte, after: seq<PV.Call>)
    requires PV.AddsQuietly(before + [PV.NoteOut(note, velocity)], after)
    ensures MidiOut(after) == MidiOut(before) + [PV.NoteOut(note, velocity)]
    ensures OpenNotes(after) == if velocity == 0 then OpenNotes(before) - {note} else OpenNotes(before) + {note}
  {
    hide *;
    OneMore(before, PV.NoteOut(note, velocity));
    QuietCalls(before + [PV.NoteOut(note, velocity)], after);
  }

  lemma CommandsToAll(calls: seq<PV.Call>, cards: seq<byte>, command: PV.Command)
    ensures var after := calls + PV.ToAll(cards, command);
            MidiOut(after) == MidiOut(calls) && OpenNotes(after) == OpenNotes(calls)
  {
    QuietCalls(calls, calls + PV.ToAll(cards, command));
  }

  function Off(note: byte): seq<PV.Call> {
    if note == 0xff then [] else [PV.NoteOut(note, 0)]
  }

  /** Notes outside the part's scale are not started. */
  function On(note: byte, velocity: byte, rejected: set<byte>): seq<PV.Call> {
    if note in rejected then [] else [PV.NoteOut(note, velocity)]
  }

  function Single(note: byte): set<byte> {
    if note == 0xff then {} else {note}
  }

  lemma OffCloses(told: seq<PV.Call>, note: byte)
    ensures OpenNotes(told + Off(note)) == OpenNotes(told) - Single(note)
  {
    if note == 0xff {
      assert told + Off(note) == told;
    } else {
      OneMore(told, PV.NoteOut(note, 0));
    }
  }

  lemma OnOpens(told: seq<PV.Call>, note: byte, velocity: byte, rejected: set<byte>)
    ensures OpenNotes(told + On(note, velocity, rejected)) <= OpenNotes(told) + {note}
  {
    if note in rejected {
      assert told + On(note, velocity, rejected) == told;
    } else {
      OneMore(told, PV.NoteOut(note, velocity));
    }
  }

  /** What is told next does to the open notes what it does, however they came to be open. */
  lemma {:induction false} SameOpen(told: seq<PV.Call>, other: seq<PV.Call>, next: seq<PV.Call>)
    requires OpenNotes(told) == OpenNotes(other)
    ensures OpenNotes(told + next) == OpenNotes(other + next)
  {
    hide *;
    if next == [] {
      assert told + next == told && other + next == other;
    } else {
      var init, last := next[..|next| - 1], next[|next| - 1];
      SameOpen(told, other, init);
      OneMore(told + init, last);
      OneMore(other + init, last);
      assert told + next == told + init + [last] && other + next == other + init + [last];
    }
  }

  /** What one step of the note sequence tells MIDI out. */
  function StepOut(step: NoteStep, note: byte, previous: byte, rejected: set<byte>): seq<PV.Call> {
    if !step.gate then Off(previous)
    else if !step.legato then Off(previous) + On(note, step.velocity, rejected)
    else if previous != note then On(note, step.velocity, rejected) + Off(previous)
    else []
  }

  lemma ToldInOrder(told: seq<PV.Call>, some: seq<PV.Call>, more: seq<PV.Call>)
    ensures told + (some + more) == told + some + more && told + [] == told
  {
  }

  /** A step stops the old note, before the new one or after it. */
  lemma StepIsTidy(told: seq<PV.Call>, step: NoteStep, note: byte, previous: byte, rejected: set<byte>)
    requires OpenNotes(told) <= Single(previous) && note < 128
    ensures OpenNotes(told + StepOut(step, note, previous, rejected)) <= if step.gate then {note} else {}
  {
    hide OpenNotes, Off, On;
    var off, on := Off(previous), On(note, step.velocity, rejected);
    if !step.gate {
      OffCloses(told, previous);
    } else if !step.legato {
      OffCloses(told, previous);
      OnOpens(told + off, note, step.velocity, rejected);
      assert told + (off + on) == told + off + on;
    } else if previous != note {
      OnOpens(told, note, step.velocity, rejected);
      OffCloses(told + on, previous);
      assert told + (on + off) == told + on + off;
    } else {
      assert told + [] == told;
    }
  }

  // ---- Which key the arpeggiator plays ----

  /** The ranges that a part keeps its arpeggiator in. */
  predicate CanStep(notes: nat, octaves: nat, arp: Arp.State) {
    0 < notes <= 127 && 0 < octaves <= 127 && (arp.heading == 1 || arp.heading == -1)
  }

  /** The state after a step in any melodic direction, RANDOM included. */
  function Advanced(direction: Arp.Direction, notes: nat, octaves: nat, arp: Arp.State, random: byte): Arp.State {
    if !CanStep(notes, octaves, arp) then arp
    else if direction.Random? then Arp.State(arp.heading, (random / 16) as int % notes, (random % 16) as int % octaves)
    else Arp.Advance(direction, notes, octaves, arp)
  }

  /** The key that a step selects: counted by age, or by how many keys are lower. */
  ghost predicate IsSelected(direction: Arp.Direction, keys: seq<NS.Key>, step: int, key: NS.Key) {
    0 <= step < |keys| &&
    if direction.AsPlayed? then key == keys[|keys| - step - 1]
    else key in keys && |NS.LowerKeys(keys, key.note)| == step
  }

  ghost function Selected(direction: Arp.Direction, keys: seq<NS.Key>, step: int): NS.Key {
    if exists key :: IsSelected(direction, keys, step, key) then
      var key :| IsSelected(direction, keys, step, key); key
    else NS.Key(0, 0)
  }

  /** AS PLAYED counts the keys pressed before the selected one, any other direction the keys below it. */
  lemma SelectionCounts(direction: Arp.Direction, keys: seq<NS.Key>, step: int, key: NS.Key)
    requires NS.DistinctNotes(keys) && IsSelected(direction, keys, step, key)
    ensures key in keys
    ensures direction.AsPlayed? ==> 0 <= step < |keys| && keys[|keys| - 1 - step] == key
    ensures !direction.AsPlayed? ==> |set other | other in keys && other.note < key.note| == step
  {
    assert (set other | other in keys && other.note < key.note) == NS.LowerKeys(keys, key.note);
  }

  /** A step selects one key only. */
  lemma SelectedIsUnique(direction: Arp.Direction, keys: seq<NS.Key>, step: int, key: NS.Key)
    requires NS.DistinctNotes(keys) && IsSelected(direction, keys, step, key)
    ensures key == Selected(direction, keys, step)
  {
    var other := Selected(direction, keys, step);
    if !direction.AsPlayed? {
      NS.SameRank(keys, key, other);
    }
  }

  lemma OctavesApart(a: int, b: int, octave: int)
    ensures (a + 12 * octave - b) % 12 == 0 ==> (a - b) % 12 == 0
  {
    if (a + 12 * octave - b) % 12 == 0 {
      QuotientUnique(a - b, 12, (a + 12 * octave - b) / 12 - octave, 0);
    }
  }

  /** The key's note in another octave; above the keyboard the highest octave of it there is. */
  function PitchOf(key: NS.Key, octave: int): (note: byte)
    ensures note < 128
  {
    Folded((key.note as int + 12 * octave) % 256)
  }

  lemma PitchIsOctavesAway(key: NS.Key, octave: int)
    ensures var note, pitch := PitchOf(key, octave), key.note as int + 12 * octave;
            && (0 <= pitch < 128 ==> note as int == pitch)
            && (128 <= pitch < 256 ==> note > 115 && (key.note as int - note as int) % 12 == 0)
  {
    hide Folded;
    var pitch := key.note as int + 12 * octave;
    if 0 <= pitch < 256 {
      RemainderCases(pitch, 256);
      OctavesApart(key.note as int, PitchOf(key, octave) as int, octave);
    }
  }

  /** The keys by ascending pitch. */
  ghost predicate IsByPitch(chord: seq<NS.Key>, keys: seq<NS.Key>) {
    && |chord| <= |keys|
    && forall i {:trigger chord[i]} :: 0 <= i < |chord| ==> chord[i] in keys && |NS.LowerKeys(keys, chord[i].note)| == i
  }

  /** All of the keys by ascending pitch. */
  ghost function ByPitch(keys: seq<NS.Key>): seq<NS.Key> {
    if exists chord :: IsByPitch(chord, keys) && |chord| == |keys| then
      var chord :| IsByPitch(chord, keys) && |chord| == |keys|; chord
    else []
  }

  lemma ByPitchAscends(chord: seq<NS.Key>, keys: seq<NS.Key>)
    requires NS.DistinctNotes(keys) && IsByPitch(chord, keys)
    ensures forall i, j :: 0 <= i < j < |chord| ==> chord[i].note < chord[j].note
  {
    forall i, j | 0 <= i < j < |chord| ensures chord[i].note < chord[j].note {
      if chord[j].note < chord[i].note {
        NS.HigherRank(keys, chord[j], chord[i]);
      }
    }
  }

  /** There is only one such order. */
  lemma ByPitchIsUnique(chord: seq<NS.Key>, keys: seq<NS.Key>)
    requires NS.DistinctNotes(keys) && IsByPitch(chord, keys) && |chord| == |keys|
    ensures chord == ByPitch(keys)
  {
    var other := ByPitch(keys);
    forall i | 0 <= i < |keys| ensures chord[i] == other[i] {
      NS.SameRank(keys, chord[i], other[i]);
    }
  }

  function ChordOn(chord: seq<NS.Key>, rejected: set<byte>): (calls: seq<PV.Call>)
    ensures |calls| <= |chord|
    ensures forall i :: 0 <= i < |calls| ==> calls[i].NoteOut? && calls[i].note !in rejected && calls[i].velocity < 128
    ensures (forall i :: 0 <= i < |chord| ==> chord[i].note !in rejected) ==>
              && |calls| == |chord|
              && forall i {:trigger calls[i]} :: 0 <= i < |calls| ==>
                   calls[i] == PV.NoteOut(chord[i].note, chord[i].velocity % 128)
  {
    if chord == [] then []
    else
      var last := chord[|chord| - 1];
      ChordOn(chord[..|chord| - 1], rejected) + On(last.note, Low7(last.velocity), rejected)
  }

  function ChordOff(chord: seq<NS.Key>): seq<PV.Call> {
    if chord == [] then [] else ChordOff(chord[..|chord| - 1]) + Off(chord[|chord| - 1].note)
  }

  /** What a clock of the arpeggiator in the CHORD direction tells MIDI out. */
  ghost function ChordOut(previous: byte, keys: seq<NS.Key>, hasNote: bool, rejected: set<byte>): seq<PV.Call> {
    if keys != [] && hasNote then ChordOn(ByPitch(keys), rejected)
    else if previous != 0xff then ChordOff(ByPitch(keys))
    else []
  }

  lemma ChordOneMore(chord: seq<NS.Key>, key: NS.Key, rejected: set<byte>)
    ensures ChordOn(chord + [key], rejected) == ChordOn(chord, rejected) + On(key.note, Low7(key.velocity), rejected)
    ensures ChordOff(chord + [key]) == ChordOff(chord) + Off(key.note)
  {
    assert (chord + [key])[..|chord|] == chord;
  }

  lemma ByPitchOneMore(chord: seq<NS.Key>, keys: seq<NS.Key>, key: NS.Key)
    requires IsByPitch(chord, keys) && |chord| < |keys| && key in keys && |NS.LowerKeys(keys, key.note)| == |chord|
    ensures IsByPitch(chord + [key], keys)
  {
  }

  class NoteGenerator {
    const voices: PV.Voices
    const arp: Arp.Arpeggio
    var direction: Arp.Direction
    var octaves: byte
    /** The generated note that is still on; 0xff when there is none. */
    var previous: byte

    ghost function Repr(): set<object> {
      {this, arp} + voices.Repr()
    }

    ghost predicate Valid()
      reads `octaves, `previous, arp`heading
      reads voices`num, voices`mode, voices.poly, voices.mono, voices.mono.mem, voices.mono.sorted
    {
      && this !in voices.Repr() && arp !in voices.Repr()
      && voices.Valid()
      && (arp.heading == 1 || arp.heading == -1) && 0 < octaves < 128
      && (previous < 128 || previous == 0xff)
    }

    /** What `Valid` says. */
    lemma Opened()
      requires Valid()
      ensures voices.Valid() && voices.mono.mem == voices.poly.mem
      ensures (arp.heading == 1 || arp.heading == -1) && 0 < octaves < 128 && (previous < 128 || previous == 0xff)
      ensures Repr() == {this, arp, voices, voices.mono, voices.mono.mem, voices.mono.sorted, voices.poly, voices.owned}
      ensures this !in voices.Repr() && arp !in voices.Repr()
      ensures voices.Repr() == {voices, voices.mono, voices.mono.mem, voices.mono.sorted, voices.poly, voices.owned}
    {
    }

    lemma Ready()
      requires this !in voices.Repr() && arp !in voices.Repr() && voices.Valid()
      requires (arp.heading == 1 || arp.heading == -1) && 0 < octaves < 128 && (previous < 128 || previous == 0xff)
      ensures Valid()
    {
    }

    /** The note that a round robin may fail to stop. */
    ghost function Stray(): set<byte>
      reads voices`mode
    {
      if voices.mode.Cyclic? then {0} else {}
    }

    /** Nothing sounds but the note the generator remembers. */
    ghost predicate Clean()
      requires Valid()
      reads `octaves, `previous, arp`heading
      reads voices`num, voices`mode, voices.poly, voices.mono, voices.mono.mem, voices.mono.sorted
    {
      voices.Sounding() <= Single(previous) + Stray()
    }

    /** MIDI out has heard of no note that is still on but the note the generator remembers. */
    ghost predicate Tidy()
      reads `previous, voices`calls
    {
      OpenNotes(voices.calls) <= Single(previous)
    }

    lemma Meaning()
      requires Valid()
      ensures Clean() <==> voices.Sounding() <= Single(previous) + Stray()
      ensures Tidy() <==> OpenNotes(voices.calls) <= Single(previous)
      ensures Single(0xff) == {} && forall note: byte :: note < 128 ==> Single(note) == {note}
      ensures Off(0xff) == []
    {
    }

    constructor ()
      ensures Valid() && Clean() && Tidy() && fresh(Repr()) && voices.rejected == {} && !direction.Chord?
      ensures voices.calls == [] && previous == 0xff
    {
      hide *;
      var some := new PV.Voices();
      var steps := new Arp.Arpeggio();
      voices, arp := some, steps;
      direction, octaves, previous := Arp.Up, 1, 0xff;
      new;
      StartsClean(arp);
      voices.ReprIs();
      Ready();
      Opened();
      Meaning();
    }

    lemma StartsClean(steps: Arp.Arpeggio)
      ensures OpenNotes([]) == {} && (steps.Abs() == Arp.State(1, 0, 0) ==> steps.heading == 1)
    {
    }

    /**
     The part of `AllNotesOff` that concerns the voices; `pedal` blocks it.  With the CHORD direction selected,
     even if it is the note sequence that plays, the remembered note is forgotten without a note-off.
     */
    method AllNotesOff(pedal: bool)
      requires Valid()
      modifies this`previous, voices`calls, voices.mono, voices.mono.mem, voices.mono.sorted, voices.poly.mem
      ensures Valid() && (old(Clean()) || !pedal ==> Clean())
      ensures old(Tidy()) ==> (Tidy() <==> pedal || !direction.Chord? || OpenNotes(old(voices.calls)) == {})
      ensures if pedal then previous == old(previous) && voices.calls == old(voices.calls)
              else
                && previous == 0xff
                && voices.calls == old(voices.calls) + PV.ToAll(voices.Cards(), PV.Release) +
                     if direction.Chord? then [] else Off(old(previous))
      ensures MidiOut(voices.calls) ==
              MidiOut(old(voices.calls)) + if pedal || direction.Chord? then [] else Off(old(previous))
    {
      hide *;
      Opened();
      Meaning();
      if pedal {
        return;
      }
      voices.Opened();
      CommandsToAll(voices.calls, voices.Cards(), PV.Release);
      voices.ReleaseAll();
      Ready();
      ForgetNote();
      Meaning();
    }

    /** The remembered note is stopped, except with the CHORD direction, and forgotten. */
    method ForgetNote()
      requires Valid()
      modifies this`previous, voices`calls
      ensures Valid() && previous == 0xff && voices.Sounding() == old(voices.Sounding())
      ensures var off := if direction.Chord? then [] else Off(old(previous));
              && voices.calls == old(voices.calls) + off
              && MidiOut(voices.calls) == MidiOut(old(voices.calls)) + off
      ensures OpenNotes(voices.calls) ==
              OpenNotes(old(voices.calls)) - if direction.Chord? then {} else Single(old(previous))
    {
      hide *;
      Opened();
      OffIs(previous);
      SingleIs(previous);
      ghost var calls := voices.calls;
      assert calls + [] == calls && MidiOut(calls) + [] == MidiOut(calls);
      if previous != 0xff {
        if !direction.Chord? {
          OneMore(voices.calls, PV.NoteOut(previous, 0));
          voices.OnNote(previous, 0);
        }
        previous := 0xff;
      }
      Ready();
    }

    lemma OffIs(note: byte)
      ensures Off(note) == if note == 0xff then [] else [PV.NoteOut(note, 0)]
    {
    }

    /** Silencing the cards tells MIDI out nothing, and leaves the remembered note as it is. */
    method AllSoundOff()
      requires Valid()
      modifies voices`calls, voices.mono, voices.mono.mem, voices.mono.sorted, voices.poly.mem
      ensures Valid() && Clean() && (Tidy() <==> old(Tidy())) && voices.Sounding() == {}
      ensures voices.calls == old(voices.calls) + PV.ToAll(voices.Cards(), PV.Kill)
      ensures MidiOut(voices.calls) == MidiOut(old(voices.calls))
    {
      hide *;
      Opened();
      Meaning();
      voices.Opened();
      CommandsToAll(voices.calls, voices.Cards(), PV.Kill);
      voices.AllSoundOff();
      voices.Opened();
      Ready();
      Meaning();
    }

    method SetPolyphonyMode(mode: PV.PolyphonyMode)
      requires Valid()
      modifies voices`mode, voices`current, voices`calls, voices.mono, voices.mono.mem, voices.mono.sorted, voices.poly
      ensures Valid() && (old(Clean()) ==> Clean()) && (Tidy() <==> old(Tidy())) && voices.mode == mode
      ensures if mode != old(voices.mode) then voices.Sounding() == {} else voices.Sounding() == old(voices.Sounding())
      ensures MidiOut(voices.calls) == MidiOut(old(voices.calls))
    {
      hide *;
      Opened();
      Meaning();
      voices.Opened();
      CommandsToAll(voices.calls, voices.Cards(), PV.Kill);
      voices.SetPolyphonyMode(mode);
      voices.Opened();
      Ready();
      Meaning();
      SameStray(old(voices.mode));
    }

    lemma SameStray(mode: PV.PolyphonyMode)
      ensures Stray() == if voices.mode.Cyclic? then {0} else {}
    {
    }

    method AssignVoices(allocation: byte)
      requires Valid()
      modifies voices`num, voices`current, voices`calls, voices.owned
      modifies voices.mono, voices.mono.mem, voices.mono.sorted, voices.poly
      ensures Valid() && Clean() && (Tidy() <==> old(Tidy()))
      ensures voices.Sounding() == {} && voices.mode == old(voices.mode)
      ensures MidiOut(voices.calls) == MidiOut(old(voices.calls))
    {
      hide *;
      Opened();
      Meaning();
      voices.Opened();
      CommandsToAll(voices.calls, voices.Cards(), PV.Kill);
      voices.AssignVoices(allocation);
      voices.Opened();
      Ready();
      Meaning();
    }

    /** `InternalNoteOn`, reduced to what it may add to the sound. */
    method StartNote(note: byte, velocity: byte)
      requires voices.Valid() && note < 128
      modifies voices`calls, voices.mono, voices.mono.mem, voices.mono.sorted, voices.poly`cyclic, voices.poly.mem
      ensures voices.Valid() && voices.Sounding() <= old(voices.Sounding()) + {note}
      ensures MidiOut(voices.calls) == MidiOut(old(voices.calls)) + On(note, velocity, voices.rejected)
      ensures OpenNotes(voices.calls) ==
              if note in voices.rejected then OpenNotes(old(voices.calls))
              else if velocity == 0 then OpenNotes(old(voices.calls)) - {note}
              else OpenNotes(old(voices.calls)) + {note}
    {
      hide *;
      ghost var before := voices.calls;
      voices.InternalNoteOn(note, velocity);
      OnIs(note, velocity);
      if note !in voices.rejected {
        ToldOnce(before, note, velocity, voices.calls);
      }
    }

    lemma OnIs(note: byte, velocity: byte)
      ensures On(note, velocity, voices.rejected) ==
              if note in voices.rejected then [] else [PV.NoteOut(note, velocity)]
    {
    }

    /** `InternalNoteOff`, reduced to what it takes from the sound. */
    method StopNote(note: byte)
      requires voices.Valid() && (note < 128 || note == 0xff)
      modifies voices`calls, voices.mono, voices.mono.mem, voices.mono.sorted, voices.poly.mem
      ensures voices.Valid() && voices.Sounding() <= old(voices.Sounding()) - {note} + Stray()
      ensures MidiOut(voices.calls) == MidiOut(old(voices.calls)) + Off(note)
      ensures OpenNotes(voices.calls) == OpenNotes(old(voices.calls)) - Single(note)
    {
      hide *;
      ghost var before := voices.calls;
      StrayNote(note);
      voices.InternalNoteOff(note);
      OffIs(note);
      SingleIs(note);
      if note != 0xff {
        ToldOnce(before, note, 0, voices.calls);
      }
    }

    lemma SingleIs(note: byte)
      ensures Single(note) == if note == 0xff then {} else {note}
    {
    }

    /** The note-off that finds an unused voice is that of note 0 in a round robin. */
    lemma StrayNote(note: byte)
      requires voices.Valid()
      ensures voices.mode.Cyclic? && PV.MeetsUnused(voices.poly.Pool(), note) ==> note in Stray()
    {
      if voices.mode.Cyclic? {
        PV.OnlyNoteZeroMeetsUnused(voices.poly.Pool(), note);
      }
    }

    /** One clock of the note sequencer while keys are pressed. */
    method ClockNoteSequence(key: byte, step: NoteStep)
      requires Valid() && key < 128 && step.velocity < 128
      modifies this`previous, voices`calls, voices.mono, voices.mono.mem, voices.mono.sorted
      modifies voices.poly`cyclic, voices.poly.mem
      ensures Valid() && (old(Tidy()) ==> Tidy()) && (old(Clean()) ==> Clean())
      ensures previous == if step.gate then Transposed(step, key) else 0xff
      ensures step.gate ==> IsTransposed(previous as int, step, key)
      ensures MidiOut(voices.calls) ==
              MidiOut(old(voices.calls)) + StepOut(step, Transposed(step, key), old(previous), voices.rejected)
      ensures var told := MidiOut(old(voices.calls));
              MidiOut(voices.calls) ==
              if !step.gate then told + Off(old(previous))
              else if !step.legato then told + Off(old(previous)) + On(previous, step.velocity, voices.rejected)
              else if previous == old(previous) then told
              else told + On(previous, step.velocity, voices.rejected) + Off(old(previous))
    {
      hide *;
      Opened();
      Meaning();
      var note := Transposed(step, key);
      TransposedMovesWithKey(step, key);
      StepOutIs(step, note);
      if !step.gate {
        StopNote(previous);
        previous := 0xff;
      } else {
        if !step.legato {
          StopNote(previous);
          StartNote(note, step.velocity);
        } else if previous != note {
          StartNote(note, step.velocity);
          StopNote(previous);
        }
        previous := note;
      }
      ghost var off, on := Off(old(previous)), On(note, step.velocity, voices.rejected);
      ToldInOrder(MidiOut(old(voices.calls)), off, on);
      ToldInOrder(MidiOut(old(voices.calls)), on, off);
      Ready();
      Meaning();
    }

    lemma StepOutIs(step: NoteStep, note: byte)
      ensures var off, on := Off(previous), On(note, step.velocity, voices.rejected);
              StepOut(step, note, previous, voices.rejected) ==
              if !step.gate then off
              else if !step.legato then off + on
              else if previous != note then on + off
              else []
    {
    }

    /** The loop that drops a pitch by octaves. */
    static method FoldOctave(pitch: byte) returns (note: byte)
      ensures note == Folded(pitch)
    {
      note := pitch;
      while note > 127
        invariant Folded(note) == Folded(pitch)
      {
        note := note - 12;
      }
    }

    /** The stack of pressed keys shares no memory with the generator, and its keys are MIDI notes. */
    ghost predicate Apart(pressed: NS.Stack)
      requires pressed.Valid()
      reads pressed, pressed.mem, pressed.sorted
    {
      && pressed !in Repr() && pressed.mem !in Repr() && pressed.sorted !in Repr()
      && pressed.size <= 127 && forall k :: 0 <= k < |pressed.Keys()| ==> pressed.Keys()[k].note < 128
    }

    lemma StandsApart(pressed: NS.Stack)
      requires pressed.Valid() && Apart(pressed)
      ensures pressed !in Repr() && pressed.mem !in Repr() && pressed.sorted !in Repr()
      ensures pressed.size <= 127 && |pressed.Keys()| == pressed.size as int && NS.DistinctNotes(pressed.Keys())
      ensures forall key :: key in pressed.Keys() ==> key.note < 128
    {
    }

    /** Looks up the selected key in the stack. */
    method SelectKey(pressed: NS.Stack) returns (key: NS.Key)
      requires pressed.Valid() && 0 <= arp.step < pressed.size as int == |pressed.Keys()|
      ensures IsSelected(direction, pressed.Keys(), arp.step, key)
    {
      hide NS.Stack.Valid, NS.LowerKeys;
      key := pressed.SortedNote(arp.step as byte);
      if direction.AsPlayed? {
        key := pressed.PlayedNote(arp.step as byte);
      }
    }

    /** Steps the arpeggiator and plays the selected key in the selected octave. */
    method PlayNext(pressed: NS.Stack, random: byte)
      requires Valid() && !direction.Chord? && pressed.Valid() && Apart(pressed) && 0 < pressed.size
      modifies this`previous, arp, voices`calls, voices.mono, voices.mono.mem, voices.mono.sorted
      modifies voices.poly`cyclic, voices.poly.mem
      ensures Valid() && pressed.Valid() && pressed.Keys() == old(pressed.Keys())
      ensures voices.Sounding() <= old(voices.Sounding()) + {previous}
      ensures OpenNotes(voices.calls) <= OpenNotes(old(voices.calls)) + {previous}
      ensures Stepped(old(arp.Abs()), pressed.Keys(), random)
      ensures var key := Selected(direction, pressed.Keys(), arp.step);
              && previous == PitchOf(key, arp.octave)
              && MidiOut(voices.calls) == MidiOut(old(voices.calls)) + On(previous, Low7(key.velocity), voices.rejected)
    {
      hide *;
      Opened();
      StandsApart(pressed);
      ghost var before := arp.Abs();
      ArpIs();
      arp.StepArpeggio(direction, pressed.size, octaves, random);
      HasStepped(before, pressed.Keys(), random);
      var key := SelectKey(pressed);
      SelectedIsUnique(direction, pressed.Keys(), arp.step, key);
      SelectedPitch(pressed.Keys(), key);
      previous := FoldOctave((key.note as int + 12 * arp.octave) % 256);
      StartNote(previous, Low7(key.velocity));
      Ready();
    }

    lemma ArpIs()
      ensures arp.Abs() == Arp.State(arp.heading, arp.step, arp.octave)
    {
    }

    /** The arpeggiator has made one step. */
    ghost predicate Stepped(before: Arp.State, keys: seq<NS.Key>, random: byte)
      reads `direction, `octaves, arp
    {
      arp.Abs() == Advanced(direction, |keys|, octaves as nat, before, random)
    }

    lemma HasStepped(before: Arp.State, keys: seq<NS.Key>, random: byte)
      requires (before.heading == 1 || before.heading == -1) && 0 < |keys| <= 127 && 0 < octaves <= 127
      requires if direction.Random? then
                 && arp.heading == before.heading && arp.step == (random / 16) as int % |keys|
                 && arp.octave == (random % 16) as int % octaves as int
               else arp.Abs() == Arp.Advance(direction, |keys|, octaves as nat, before)
      ensures Stepped(before, keys, random)
    {
    }

    lemma SelectedPitch(keys: seq<NS.Key>, key: NS.Key)
      ensures PitchOf(key, arp.octave) == Folded((key.note as int + 12 * arp.octave) % 256)
    {
    }

    /** One clock of the arpeggiator in any direction but CHORD. */
    method ClockMelody(pressed: NS.Stack, hasNote: bool, random: byte)
      requires Valid() && !direction.Chord? && pressed.Valid() && Apart(pressed)
      modifies this`previous, arp, voices`calls, voices.mono, voices.mono.mem, voices.mono.sorted
      modifies voices.poly`cyclic, voices.poly.mem
      ensures Valid() && (old(Tidy()) ==> Tidy()) && (old(Clean()) ==> Clean())
      ensures pressed.Valid() && pressed.Keys() == old(pressed.Keys())
      ensures PlaysMelody(old(arp.Abs()), old(previous), MidiOut(old(voices.calls)), pressed.Keys(), hasNote, random)
    {
      hide *;
      Opened();
      Meaning();
      StandsApart(pressed);
      StopNote(previous);
      if pressed.size > 0 && hasNote {
        Ready();
        PlayNext(pressed, random);
        Opened();
        Melody(old(arp.Abs()), old(previous), MidiOut(old(voices.calls)), pressed.Keys(), random);
      } else {
        previous := 0xff;
        Silence(old(arp.Abs()), old(previous), MidiOut(old(voices.calls)), pressed.Keys(), hasNote, random);
      }
      Ready();
      Meaning();
    }

    /** The old note is stopped, and with a key and a note in the pattern the selected key is played. */
    ghost predicate PlaysMelody(
        before: Arp.State, stopped: byte, told: seq<PV.Call>, keys: seq<NS.Key>, hasNote: bool, random: byte)
      reads `direction, `octaves, `previous, arp, voices`calls, voices`rejected
    {
      if keys != [] && hasNote then
        var key := Selected(direction, keys, arp.step);
        && Stepped(before, keys, random)
        && previous == PitchOf(key, arp.octave)
        && MidiOut(voices.calls) == told + Off(stopped) + On(previous, Low7(key.velocity), voices.rejected)
      else arp.Abs() == before && previous == 0xff && MidiOut(voices.calls) == told + Off(stopped)
    }

    lemma Melody(before: Arp.State, stopped: byte, told: seq<PV.Call>, keys: seq<NS.Key>, random: byte)
      requires keys != [] && Stepped(before, keys, random)
      requires previous == PitchOf(Selected(direction, keys, arp.step), arp.octave)
      requires MidiOut(voices.calls) ==
               told + Off(stopped) + On(previous, Low7(Selected(direction, keys, arp.step).velocity), voices.rejected)
      ensures PlaysMelody(before, stopped, told, keys, true, random) && previous < 128
    {
    }

    lemma Silence(before: Arp.State, stopped: byte, told: seq<PV.Call>, keys: seq<NS.Key>, hasNote: bool, random: byte)
      requires keys == [] || !hasNote
      requires arp.Abs() == before && previous == 0xff && MidiOut(voices.calls) == told + Off(stopped)
      ensures PlaysMelody(before, stopped, told, keys, hasNote, random)
    {
    }

    /** Starts every pressed key, by ascending pitch. */
    method StartChord(pressed: NS.Stack)
      requires Valid() && pressed.Valid() && Apart(pressed)
      modifies voices`calls, voices.mono, voices.mono.mem, voices.mono.sorted, voices.poly`cyclic, voices.poly.mem
      ensures Valid() && pressed.Valid() && pressed.Keys() == old(pressed.Keys())
      ensures MidiOut(voices.calls) == MidiOut(old(voices.calls)) + ChordOn(ByPitch(pressed.Keys()), voices.rejected)
    {
      hide *;
      Opened();
      StandsApart(pressed);
      ghost var chord := [];
      NoChord(pressed.Keys());
      for i := 0 to pressed.size
        invariant Valid() && pressed.Valid() && Apart(pressed) && pressed.Keys() == old(pressed.Keys())
        invariant IsByPitch(chord, pressed.Keys()) && |chord| == i as int
        invariant MidiOut(voices.calls) == MidiOut(old(voices.calls)) + ChordOn(chord, voices.rejected)
      {
        Opened();
        StandsApart(pressed);
        var key := pressed.SortedNote(i);
        ByPitchOneMore(chord, pressed.Keys(), key);
        ChordOneMore(chord, key, voices.rejected);
        chord := chord + [key];
        StartNote(key.note, Low7(key.velocity));
        Ready();
      }
      StandsApart(pressed);
      ByPitchIsUnique(chord, pressed.Keys());
    }

    /** Stops every pressed key, by ascending pitch. */
    method StopChord(pressed: NS.Stack)
      requires Valid() && pressed.Valid() && Apart(pressed)
      modifies voices`calls, voices.mono, voices.mono.mem, voices.mono.sorted, voices.poly`cyclic, voices.poly.mem
      ensures Valid() && pressed.Valid() && pressed.Keys() == old(pressed.Keys())
      ensures MidiOut(voices.calls) == MidiOut(old(voices.calls)) + ChordOff(ByPitch(pressed.Keys()))
    {
      hide *;
      Opened();
      StandsApart(pressed);
      ghost var chord := [];
      NoChord(pressed.Keys());
      for i := 0 to pressed.size
        invariant Valid() && pressed.Valid() && Apart(pressed) && pressed.Keys() == old(pressed.Keys())
        invariant IsByPitch(chord, pressed.Keys()) && |chord| == i as int
        invariant MidiOut(voices.calls) == MidiOut(old(voices.calls)) + ChordOff(chord)
      {
        Opened();
        StandsApart(pressed);
        var key := pressed.SortedNote(i);
        ByPitchOneMore(chord, pressed.Keys(), key);
        ChordOneMore(chord, key, voices.rejected);
        chord := chord + [key];
        StopNote(key.note);
        Ready();
      }
      StandsApart(pressed);
      ByPitchIsUnique(chord, pressed.Keys());
    }

    lemma NoChord(keys: seq<NS.Key>)
      ensures IsByPitch([], keys) && ChordOn([], voices.rejected) == [] && ChordOff([]) == []
    {
    }

    /** One clock of the arpeggiator in the CHORD direction. */
    method ClockChord(pressed: NS.Stack, hasNote: bool)
      requires Valid() && pressed.Valid() && Apart(pressed)
      modifies this`previous, voices`calls, voices.mono, voices.mono.mem, voices.mono.sorted
      modifies voices.poly`cyclic, voices.poly.mem
      ensures Valid() && pressed.Valid() && pressed.Keys() == old(pressed.Keys())
      ensures PlaysChord(old(previous), MidiOut(old(voices.calls)), pressed.Keys(), hasNote)
    {
      hide *;
      Opened();
      StandsApart(pressed);
      ghost var keys, told := pressed.Keys(), MidiOut(voices.calls);
      if pressed.size > 0 && hasNote {
        StartChord(pressed);
        Opened();
        previous := 60;
      } else {
        if previous != 0xff {
          StopChord(pressed);
        }
        Opened();
        previous := 0xff;
      }
      Ready();
      Chord(old(previous), told, keys, hasNote);
    }

    /**
     A note in the pattern starts every pressed key, by ascending pitch and without stopping any; a blank stops
     every pressed key if a chord was played before.
     */
    ghost predicate PlaysChord(before: byte, told: seq<PV.Call>, keys: seq<NS.Key>, hasNote: bool)
      reads `previous, voices`calls, voices`rejected
    {
      && previous == (if keys != [] && hasNote then 60 else 0xff)
      && MidiOut(voices.calls) == told + ChordOut(before, keys, hasNote, voices.rejected)
    }

    lemma Chord(before: byte, told: seq<PV.Call>, keys: seq<NS.Key>, hasNote: bool)
      requires previous == if keys != [] && hasNote then 60 else 0xff
      requires MidiOut(voices.calls) ==
               if keys != [] && hasNote then told + ChordOn(ByPitch(keys), voices.rejected)
               else if before != 0xff then told + ChordOff(ByPitch(keys))
               else told
      ensures PlaysChord(before, told, keys, hasNote)
    {
      assert told + [] == told;
    }

    /** One clock of the arpeggiator. */
    method ClockArpeggiator(pressed: NS.Stack, hasNote: bool, random: byte)
      requires Valid() && pressed.Valid() && Apart(pressed)
      modifies this`previous, arp, voices`calls, voices.mono, voices.mono.mem, voices.mono.sorted
      modifies voices.poly`cyclic, voices.poly.mem
      ensures Valid() && pressed.Valid() && pressed.Keys() == old(pressed.Keys())
      ensures !direction.Chord? ==>
                && (old(Tidy()) ==> Tidy()) && (old(Clean()) ==> Clean())
                && PlaysMelody(old(arp.Abs()), old(previous), MidiOut(old(voices.calls)), pressed.Keys(),
                   hasNote, random)
      ensures direction.Chord? ==>
                arp.Abs() == old(arp.Abs()) &&
                    PlaysChord(old(previous), MidiOut(old(voices.calls)), pressed.Keys(), hasNote)
    {
      hide *;
      Opened();
      StandsApart(pressed);
      if direction.Chord? {
        ClockChord(pressed, hasNote);
      } else {
        ClockMelody(pressed, hasNote, random);
      }
    }
  }

  /** With CHORD left selected, the note sequence's note stays on at MIDI out when all notes are switched off. */
  method ChordStrandsNote() returns (generator: NoteGenerator)
    ensures generator.Valid() && generator.direction.Chord? && generator.previous == 0xff
    ensures MidiOut(generator.voices.calls) == [PV.NoteOut(60, 100)] && !generator.Tidy()
  {
    hide *;
    generator := new NoteGenerator();
    generator.Opened();
    generator.direction := Arp.Chord;
    OneNotePlayed();
    generator.ClockNoteSequence(60, NoteStep(60, 100, false, true));
    generator.AllNotesOff(false);
    StillOpen(generator);
  }

  lemma OneNotePlayed()
    ensures MidiOut([]) == [] && Transposed(NoteStep(60, 100, false, true), 60) == 60
    ensures StepOut(NoteStep(60, 100, false, true), 60, 0xff, {}) == [PV.NoteOut(60, 100)]
  {
  }

  lemma StillOpen(generator: NoteGenerator)
    requires MidiOut(generator.voices.calls) == [PV.NoteOut(60, 100)] && generator.previous == 0xff
    ensures !generator.Tidy()
  {
    OpenByMidiOut(generator.voices.calls);
    assert [PV.NoteOut(60, 100)][..0] == [];
    assert 60 in OpenNotes([PV.NoteOut(60, 100)]);
  }
}
