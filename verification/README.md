# Ambika voice control: a verified model

This project models the parts of the Ambika firmware in which compact or concurrent structures have to
agree with a simple meaning over every run, and proves that they do, or exactly when they do:

* `NoteStack`, `VoiceAllocator`, `Ownership`, `PartVoices`, `Keyboard`, `Generator`, `Arpeggiator`, `Part`, `Heard`: which keys
  are pressed or sustained, which voices play them, which cards belong to whom, and which generated note is on.
* `RingBuffer`, `RingInterleaving`: the lock-free queues, as code and as single loads and stores of two sides.
* `Protocol`, `CardTransmitter`, `CardReceiver`, `Replica`, `History`: the bytes between controller and voice cards,
  the two ends that write and read them, the copies of the patches over every interleaving of both, and what a run of
  operations leaves in them.
* `MidiParser`, `SysEx`, `Dumps`, `Riff`, `Objects`: the MIDI stream, system exclusive dumps and saved files as
  round trips.
* `Portamento`, `Envelope`: two stepping machines of a voice card.

Each class carries the fields that the firmware updates in place. Its methods are proved against functions on
values, and the lemmas are about those functions, their runs and their inverses. `Bytes` and `Arithmetic` hold
shared facts. Bytes are integers below 256 and wrap where the firmware's do. `dafny verify dfyconfig.toml` checks
the project.

Findings, each with its exact condition and, where it is not plain from that, a concrete input:

* A round robin releases another voice than it used when an earlier voice looks like it, which only an unused
  voice does for note 0 and a released one for note 127 (`CyclicReleaseExactly`, `CyclicNoteZeroReleasesAnother`).
* With the CHORD direction selected, switching all notes off forgets the note of a sequence without a note-off
  (`NoteGenerator.AllNotesOff`, `ChordStrandsNote`).
* Initializing a sequence changes the polyphony mode without setting up the memory for it; a MONO part with a card
  and no key is then left with a recency list that names no voice (`Voices.InitSequence`, `InitSequenceStrandsMono`).
* With neither sequencer nor arpeggiator, switching all notes off tells MIDI out nothing, and a thirteenth key leaves
  the oldest one on there (`Heard.NextIsHeard`); silencing the cards while a generated note is remembered leaves it
  on there (`Heard.NextIsSilentWithoutKeys`).
* A foreign system exclusive message can make the receiver store an old dump again (`AcceptedExactly`, `ForeignMessageRepeats`).
* An object chunk of a wrong size in a file hides the chunk after it (`MisfitOvershoots`, `MisfitHidesName`).
* A whole multi is restored exactly when its voice masks are free of conflicts (`MultiIsRestoredExactly`,
  `ConflictingMultiChanges`).
* At portamento time 0 a glide far enough upwards overflows (`NoteStartGlides`, `SentPitchesGlide`, `TopNoteOverflows`).
* Lowering the sustain level during the decay leaves the value above its segment (`SustainIsInSegment`,
  `LoweredSustainLeavesSegment`).
* SOLO addresses a card it may not own when the part owns none, and UNISON_2X wraps the last pair of an odd
  number of cards around to the first card (`Voices.InternalNoteOn`, `SoloWithoutCards`, `VoicesShareNoCard`,
  `OddUnisonSharesACard`).
* A full ring that is written without asking loses its whole backlog (`Ring.Overwrite`).

The comments in the code say that the manual numbers multi and part dumps the other way round; the model follows
the code.

## Model

| member | source | states |
|---|---|---|
| NoteStack.Stack.NoteOn | controller/note_stack.h:61-102 | the chain from the root becomes: that pitch deleted, the oldest key dropped if the stack is full, the new key in front; chain, free slots and sorted index stay in order |
| NoteStack.Stack.NoteOff | controller/note_stack.h:104-133 | exactly the key of that pitch leaves the list, its slot is blanked and no other velocity changes |
| NoteStack.Stack.Clear | controller/note_stack.h:135-143 | any memory becomes an empty stack; only the dummy node keeps its velocity and pointer |
| NoteStack.Stack.Find | controller/note_stack.h:105-113 | the walk stops at the first node of that pitch, with its predecessor, and nowhere when the pitch is absent |
| NoteStack.Stack.OldestNote | controller/note_stack.h:66-73 | in a full stack the one node that points nowhere holds the oldest key |
| NoteStack.Stack.InsertSorted | controller/note_stack.h:88-100 | the new slot goes in front of the first higher pitch and the rest keeps its order |
| NoteStack.Stack.RemoveSorted | controller/note_stack.h:120-127 | exactly the given slot leaves the index and the gap closes |
| NoteStack.Stack.PlayedNote | controller/note_stack.h:155-162 | the index counts keys from the oldest one |
| NoteStack.Stack.SortedNote | controller/note_stack.h:163-165 | the index is the number of pressed keys that are lower |
| NoteStack.PressInSteps | controller/note_stack.h:61-74 | deleting the pitch and then the last key of a full list leaves room and is what pressing the key means |
| NoteStack.LatestAreRemembered | controller/note_stack.h:61-102 | after any presses the stack holds the pitches pressed last, the latest first, and has forgotten only older ones |
| NoteStack.ChainFits | controller/note_stack.h:57-102 | a chain is shorter than the pool, fills it exactly when the stack is full, and otherwise leaves a free slot |
| NoteStack.UnlinkKeepsChain | controller/note_stack.h:114-130 | bypassing a node leaves an acyclic chain over the remaining slots, with its key released |
| NoteStack.LinkKeeps | controller/note_stack.h:83-101 | a filled free slot at the root keeps the chain and the sorted index |
| NoteStack.SortedIndexIsPermutation | controller/note_stack.h:173-177 | the sorted index lists exactly the slots of the chain |
| NoteStack.RankInIndex | controller/note_stack.h:163-165 | the i-th slot of the index has exactly i lower pitches |
| VoiceAllocator.Allocator.Init | controller/voice_allocator.h:30-36 | both windows of the borrowed memory are set up: all voices silent, the recency list a permutation, round robin only if asked for |
| VoiceAllocator.Allocator.Touch | controller/voice_allocator.cc:113-123 | the compaction in place is move-to-front |
| VoiceAllocator.Allocator.PickSilent | controller/voice_allocator.cc:52-59 | the scan ends on the silent voice touched longest ago |
| VoiceAllocator.Allocator.NoteOn | controller/voice_allocator.cc:38-78 | voice, pool, recency list and round robin are those of the policy on values; a round robin counts on by one and starts over |
| VoiceAllocator.Allocator.NoteOff | controller/voice_allocator.cc:98-111 | the holder of the note is released, or freed in cyclic mode, and returned |
| VoiceAllocator.Allocator.Find | controller/voice_allocator.cc:80-87 | the first voice that holds the note, sounding or not |
| VoiceAllocator.Allocator.FindActive | controller/voice_allocator.cc:89-96 | the first voice that holds the note and sounds |
| VoiceAllocator.MoveToFrontKeepsPermutation | controller/voice_allocator.cc:113-123 | touching a voice leaves a permutation of the voices |
| VoiceAllocator.OnFollowsPolicy | controller/voice_allocator.cc:38-78 | the voice is the first holder of the note, else the stalest silent voice, else the stalest voice |
| VoiceAllocator.ChooseFindsVoice | controller/voice_allocator.cc:44-66 | whatever the memory holds, a voice is found exactly when one holds the note or the recency list names one |
| VoiceAllocator.OnKeepsExclusive | controller/voice_allocator.cc:38-78 | after a note-on a sounding voice is still the first holder of its note |
| VoiceAllocator.GivenInTurn | controller/voice_allocator.cc:68-72 | over any run, note-offs included, a round robin gives its t-th note the voice t places behind where it was, modulo the number of voices |
| VoiceAllocator.EveryVoiceInTurn | controller/voice_allocator.cc:68-72 | so as many notes in a row as there are voices use every voice once |
| VoiceAllocator.FirstNotesFirstVoices | controller/voice_allocator.cc:27-66 | on a cleared allocator the first notes, all different, sound on the voices from the first one on |
| VoiceAllocator.OffKeepsExclusive | controller/voice_allocator.cc:98-111 | after a note-off a sounding voice is still the first holder of its note |
| VoiceAllocator.SoundsOnOneVoice | controller/voice_allocator.cc:80-111 | no note sounds on two voices, and its note-off finds the one it sounds on |
| VoiceAllocator.UnstolenVoiceKeepsNote | controller/voice_allocator.cc:38-111 | over any run that neither releases nor steals it, its own retriggers included, a voice keeps sounding its note |
| VoiceAllocator.NoteOffFindsItsVoice | controller/voice_allocator.cc:38-111 | after any such run the note-off of a note returns the voice its note-on returned |
| VoiceAllocator.LruIsRecencyOrder | controller/voice_allocator.cc:113-123 | after any run the list orders the voices by when they were last touched |
| VoiceAllocator.CyclicReleasesItsVoice | controller/voice_allocator.cc:68-111 | so it does in a round robin, over any run with the guard against doubled notes, for notes 1 to 126 |
| VoiceAllocator.CyclicReleaseExactly | controller/voice_allocator.cc:68-111 | for any note and any guarded run, exactly when no earlier voice looks like it: unused for note 0, released for note 127 |
| VoiceAllocator.GuardedRunKeepsExclusive | controller/part.cc:739-742 | over any guarded run a round robin never sounds a note on two voices |
| VoiceAllocator.CyclicReleaseUnguarded | controller/voice_allocator.cc:68-111 | without the guard, exactly when no earlier voice holds the note |
| VoiceAllocator.CyclicNoteZeroReleasesAnother | controller/voice_allocator.cc:34-36 | note 0 on a fresh round robin is given voice 1 and released on voice 0 |
| Ownership.Mapping.SolveAllocationConflicts | controller/multi.cc:109-119 | every card goes to the first part that claims it, the excluded part is left alone, and the result is what nobody claimed |
| Ownership.SolveSettles | controller/multi.cc:109-119 | the pass over the parts computes the settlement, bit by bit |
| Ownership.SettlementIsUnique | controller/multi.cc:109-119 | there is only one settlement |
| Ownership.SettlementIsFair | controller/multi.cc:145-150 | settled masks are disjoint subsets of the old ones with the same union; settling again changes nothing; nothing changes exactly when there was no conflict |
| Ownership.LeftoversAreConflictFree | controller/ui_pages/voice_assigner.cc:116-131 | giving the excluded part only leftovers keeps the masks disjoint |
| Ownership.NoSharedCard | controller/part.cc:244-253 | disjoint masks list no card twice |
| PartVoices.Voices.InitializeAllocators | controller/part.cc:260-277 | whatever the 24 bytes held, the structure of the selected mode is in order and silent, CHAIN with twelve entries included |
| PartVoices.Voices.AllSoundOff | controller/part.cc:546-556 | exactly the owned cards are killed, each once, and what held the memory of the mode is silent, the cards included |
| PartVoices.Voices.SetPolyphonyMode | controller/part.cc:311-314 | a changed mode kills the owned cards and sets up the shared memory from any state; the same mode does nothing |
| PartVoices.Voices.AssignVoices | controller/part.cc:244-258 | the old cards are killed, the new ones are those of the mask, nothing sounds, and the list keeps stale entries behind them |
| PartVoices.Voices.TakeOver | controller/part.cc:247-254 | the shifted bit lists exactly the cards of the mask in ascending order |
| PartVoices.Voices.InitSequence | controller/part.cc:218-224 | POLY is written into the mode without setting up the memory; the memory fits exactly in the cases listed by mode and number of cards, and after MONO or SOLO if the allocator was last set up for as many voices and four nodes of the stack happen to read as its lists, never without a key while there is a card |
| PartVoices.ReadsAsVoicesNeedsLowKey | controller/part.cc:218-224 | for that a key below the number of cards has to sit in the fourth slot |
| PartVoices.InitSequenceStrandsMono | controller/voice_allocator.cc:51-75 | a MONO part with a card and no key: after its sequence is initialized the recency list names no voice, a note-on finds none, and the cell it would write is outside the shared memory |
| PartVoices.Voices.TouchMode | controller/part.cc:171-174 | a refresh sets up the memory from any state when the mode is not the one it was set up for |
| PartVoices.Voices.InternalNoteOn | controller/part.cc:706-776 | state of the shared memory and, card by card, the calls of every mode: each addressed card plays the note with its own detune, legato exactly if another key is held, a voice its own card or pair; only owned cards are addressed, exactly unless the part is SOLO without cards; cards in tune with what the part has sounding stay so |
| PartVoices.Voices.InternalNoteOff | controller/part.cc:778-832 | the note stops sounding and nothing else does, exactly unless a round robin meets an unused voice for note 0; releasing the most recent key brings the one pressed before it back on every addressed card, legato, and the last key lets them fade; cards in tune stay so; only owned cards are addressed, exactly unless a SOLO part without cards has something to send |
| PartVoices.ReleasePlaysTop | controller/part.cc:785-808 | after a release every addressed card plays the most recent key left, or nothing when none is |
| PartVoices.VoiceChangePlays | controller/part.cc:739-827 | where no two voices share a card, a voice that starts or stops takes its cards with it and leaves those of the others playing their notes |
| PartVoices.Voices.ReleaseAll | controller/part.cc:558-570 | every owned card fades, nothing sounds, and cards in tune stay so |
| PartVoices.PolyphonicCallsStayHome | controller/part.cc:743-827 | whatever voice is answered, all commands of a polyphonic mode go to owned cards |
| PartVoices.MonophonicCallsStayHome | controller/part.cc:713-808 | triggers and releases of MONO go to owned cards; those of SOLO exactly when its first entry is owned or nothing is sent |
| PartVoices.VoicesShareNoCard | controller/part.cc:498-504 | two voices never share a card, exactly unless UNISON_2X pairs an odd number of cards above one |
| PartVoices.PolyOnSounds | controller/part.cc:739-742 | with the guard against doubled notes a note-on adds at most its own note and keeps notes on one voice each |
| PartVoices.OffSilences | controller/part.cc:810-810 | a note-off removes its note from what sounds, and nothing else |
| PartVoices.OffSilencesInTurn | controller/voice_allocator.cc:98-111 | so it does in a round robin, exactly unless it meets an unused voice first |
| PartVoices.PolyOnSoundsInTurn | controller/part.cc:739-742 | in a round robin a guarded note-on adds at most its own note and keeps notes on one voice each |
| Arpeggiator.Arpeggio.StepArpeggio | controller/part.cc:1041-1078 | from any stale step the new step is a pressed key; the recursion happens at most once; the melodic directions follow the step on values |
| Arpeggiator.Arpeggio.StartArpeggio | controller/part.cc:1031-1039 | a sweep begins at the end its heading comes from |
| Arpeggiator.InnerStepMovesByOne | controller/part.cc:1054-1064 | inside the range a step moves by one along the line of octaves and keys |
| Arpeggiator.LeavesOnlyAtEnd | controller/part.cc:1055-1065 | the range is left exactly at the end of the line |
| Arpeggiator.SweepMovesByOne | controller/part.cc:1072-1074 | UP and AS_PLAYED move on by one and DOWN back by one, starting over at the end |
| Arpeggiator.UpDownReflects | controller/part.cc:1066-1071 | UP_DOWN turns round at both ends without repeating them |
| Arpeggiator.UpSweep | controller/part.cc:1041-1078 | after t steps upwards the position has moved by t modulo the length of the line |
| Arpeggiator.DownSweep | controller/part.cc:1041-1078 | after t steps downwards it has moved back by t modulo that length |
| Arpeggiator.UpDownIsTriangle | controller/part.cc:1041-1078 | from any state in range, after t steps UP_DOWN is t further on the triangle wave of period 2N-2 |
| Keyboard.Keys.NoteOn | controller/part.cc:332-363 | the stack becomes that of the key press in every mode; what sounds or falls silent by mode, velocity 0 included |
| Keyboard.Keys.NoteOff | controller/part.cc:365-395 | a key is released, or flagged under the pedal and in the latch modes; what is silenced depends on mode and remaining keys |
| Keyboard.Keys.HoldPedal | controller/part.cc:408-421 | releasing the pedal leaves exactly the unflagged keys, although nodes are removed while slots are scanned; each sustained note, or everything, falls silent by mode |
| Keyboard.Keys.FlagKey | controller/part.cc:369-378 | the scan of all slots flags the key of that pitch and no other |
| Keyboard.Keys.Sweep | controller/part.cc:414-419 | after the scan no slot is flagged, the unflagged keys are untouched, and the flagged notes are silenced in the order of their slots |
| Keyboard.Keys.FlaggedSlotsAreSustained | controller/part.cc:414-419 | the notes silenced are those of the sustained keys |
| Keyboard.Keys.AllNotesOff | controller/part.cc:558-567 | the keys are forgotten unless the pedal is down |
| Keyboard.EventMatches | controller/part.cc:332-421 | an event keeps stack and fingers in agreement exactly when it does not ask for a thirteenth key |
| Keyboard.PressMatches | controller/note_stack.h:61-102 | a key press is remembered exactly when held and sustained keys stay within twelve |
| Keyboard.OverflowForgets | controller/note_stack.h:66-74 | a thirteenth key makes the stack forget one that is still held or sustained |
| Keyboard.StackFollowsFingers | controller/part.cc:332-421 | over any such run the plain keys are those held and the flagged ones those released under the pedal |
| Generator.NoteGenerator.ClockNoteSequence | controller/part.cc:891-916 | a gated step plays its note moved with the key, stopped at either end of the keyboard; what MIDI out hears in order, the old note off before the new one, or after it under legato, or nothing for a note that is held; in every mode nothing stays on there, and nothing sounds, but the remembered note |
| Generator.NoteGenerator.ClockArpeggiator | controller/part.cc:983-1023 | in every direction and polyphony mode what MIDI out hears: the melodic directions stop the old note and play the selected key in the selected octave, folded below 128, and nothing stays on or sounds but that; CHORD starts or stops every pressed key by ascending pitch |
| Generator.NoteGenerator.ClockChord | controller/part.cc:1002-1021 | in the CHORD direction a note in the pattern starts every pressed key without stopping any, and a blank stops every pressed key if a chord was played before |
| Generator.NoteGenerator.PlayNext | controller/part.cc:986-1001 | the arpeggiator makes one step, and the key with as many lower keys as the step counts, or the one as many after the oldest, is played |
| Generator.SelectedIsUnique | controller/part.cc:989-992 | a step selects one key only |
| Generator.SelectionCounts | controller/part.cc:989-992 | AS_PLAYED counts the keys pressed before the selected one, every other direction the keys below it |
| Generator.PitchIsOctavesAway | controller/part.cc:993-998 | the note played is the key in the octave of the step, or above the keyboard the highest octave of it there is |
| Generator.ByPitchIsUnique | controller/part.cc:1003-1006 | the keys have one order by ascending pitch, with as many lower keys as the position counts |
| Generator.ByPitchAscends | controller/part.cc:1003-1006 | that order ascends |
| Generator.NoteGenerator.AllNotesOff | controller/part.cc:558-583 | the remembered note is stopped and forgotten unless the pedal is down; no note stays on exactly unless the CHORD direction is selected and one is on |
| Generator.NoteGenerator.FoldOctave | controller/part.cc:995-998 | the loop drops a pitch by octaves until it is below 128 |
| Generator.NoteGenerator.StartNote | controller/part.cc:706-710 | exactly this note is told to MIDI out and becomes open there, unless the scale leaves it out |
| Generator.NoteGenerator.StopNote | controller/part.cc:778-782 | exactly this note is switched off at MIDI out |
| Generator.OpenByMidiOut | controller/part.cc:710-782 | only the notes told to MIDI out decide what is open there |
| Generator.ChordStrandsNote | controller/part.cc:572-581 | with CHORD selected, the note of a sequence stays on after all notes are switched off |
| Part.Part.Play | controller/part.cc:332-1029 | over any run of clocks, key, pedal and voice events, in every mode, direction and polyphony mode, the part follows the run on values: the pressed keys, LATCH included, the arpeggiator, the remembered note and what MIDI out is told; as long as a generator plays and no chords, no generated note stays on or sounds but the remembered one |
| Part.NextAlike | controller/part.cc:332-1029 | whatever happens next depends on what is on at MIDI out, not on what was told to get there |
| Part.PedalAlike | controller/part.cc:408-421 | where each key is stopped by itself, the pedal's release switches off the sustained notes whatever slots they sit in |
| Part.HandleKeys | controller/part.cc:332-421 | in every mode a key event leaves the keys of its meaning and makes its calls |
| Part.RunIsTidy | controller/part.cc:332-1029 | on values, over any such run, the notes told on and not off again are at most the remembered one |
| Part.SteppedIsTidy | controller/part.cc:891-916 | a step of the sequence stops the old note, before the new one or after it under legato |
| Part.ArpeggiatedIsTidy | controller/part.cc:983-1023 | so does a step of the arpeggiator in any melodic direction |
| Part.NextIsTidy | controller/part.cc:332-1029 | so does every event, as long as a generator plays and no chords |
| Part.Part.NoteOn | controller/part.cc:332-363 | in every mode a key press takes the part, keys and notes told, to the next state on values |
| Part.Part.NoteOff | controller/part.cc:365-395 | a release does: by mode the key's own note is stopped, or the remembered one when no key is left |
| Part.Part.HoldPedal | controller/part.cc:408-421 | the pedal does: by mode its release stops each sustained note, in the order of their slots, or the remembered one when no key is left |
| Part.Part.AllNotesOff | controller/part.cc:558-583 | switching all notes off does, unless the pedal is down; with CHORD selected nothing is told |
| Part.Part.Clock | controller/part.cc:879-1023 | a clock does: the sequence, its step moved with the most recent key, or the arpeggiator, in any direction, for the pressed keys, which stay as they are |
| Heard.NextIsHeard | controller/part.cc:332-421 | with neither sequencer nor arpeggiator every event keeps the notes on at MIDI out those of the pressed keys, exactly unless it forgets a key: a thirteenth one, or all of them while some are down |
| Heard.FingersAreHeard | controller/part.cc:332-421 | so over any run of key and pedal events within twelve keys the notes on there are those that the player holds and the pedal sustains |
| Heard.NextIsSilentWithoutKeys | controller/part.cc:380-395 | with the note sequence or the arpeggiator every event leaves no note remembered without keys, exactly unless it silences the cards while one is |
| Heard.SilenceFollowsKeys | controller/part.cc:380-1023 | so over any run of clocks, key and pedal events nothing is on at MIDI out once no key is down or sustained |
| Heard.ClocksWalk | controller/part.cc:983-1001 | while the keys stay, every clock with a note in the pattern is one step of the arpeggiator and plays the key and octave it comes to |
| Heard.ClocksSweepUp | controller/part.cc:983-1078 | upwards the t-th clock is t places on along the line of all keys in all octaves, modulo its length |
| Part.Part.Perform | controller/part.cc:332-421 | carrying out what key handling calls sounds and silences exactly that, in order |
| Part.Part.AllSoundOff | controller/part.cc:546-556 | voices and pressed keys are cleared together in every mode, and MIDI out is told nothing |
| Part.Part.SetPolyphonyMode | controller/part.cc:311-314 | a changed mode clears voices and pressed keys, the same mode nothing |
| Part.Part.AssignVoices | controller/part.cc:244-258 | a new set of cards clears voices and pressed keys |
| RingBuffer.MaskIsRemainder | avrlib/ring_buffer.h:41-45 | for powers of two the mask is the remainder |
| RingBuffer.WrapIsMask | avrlib/ring_buffer.h:54-56 | so is the one-subtraction wrap used for indices |
| RingBuffer.Ring.NonBlockingWrite | avrlib/ring_buffer.h:57-64 | an element is appended exactly when fewer than size-1 are waiting |
| RingBuffer.Ring.Overwrite | avrlib/ring_buffer.h:65-69 | an element is appended while there is room; into a full ring the whole backlog vanishes |
| RingBuffer.Ring.ImmediateRead | avrlib/ring_buffer.h:92-97 | the oldest element is taken |
| RingBuffer.Ring.Overwrite2 | avrlib/ring_buffer2.h:76-82 | two elements are appended in bounds and the write index stays even |
| RingBuffer.ProcessBlock | voicecard/voice.cc:475-482 | the branch for a closed amplifier appends 40 samples of silence, the other the rendered ones, and the write index stays even |
| RingInterleaving.NextKeepsInv | avrlib/ring_buffer2.h:33-105 | every single load or store of either side keeps queue order and both sides' safety |
| RingInterleaving.StoreMissesUnread | voicecard/voicecard.cc:187-195 | an unchecked store inside a granted block is in bounds and hits no unread slot |
| RingInterleaving.RingIsQueue | avrlib/ring_buffer.h:54-97 | in every interleaving the indices stay in bounds, and what was accepted is what was taken followed by what the ring still holds, at most size-1 elements |
| RingInterleaving.RefusalMeansNoRoom | voicecard/voicecard.cc:187-187 | a block is refused exactly when it did not fit when the read index was loaded |
| RingInterleaving.InstancesFit | voicecard/audio_out.h:42-45 | the 128-sample audio ring with blocks of 40 in pairs, and byte queues of 2 to 256, are instances |
| PartVoices.OddUnisonSharesACard | controller/part.cc:743-749 | with three cards the second UNISON_2X voice uses the first card too |
| PartVoices.SoloWithoutCards | controller/part.cc:728-735 | a SOLO part that has lost its only card still triggers it |
| Protocol.CommandIsPerformed | voicecard/voicecard_rx.h:191-216 | the bytes of any command make the card perform it and return to a frame boundary |
| Protocol.StreamIsPerformed | voicecard/voicecard_rx.h:191-216 | the concatenated bytes of any commands perform exactly these, in order |
| Protocol.SyncRecovers | controller/voicecard_tx.cc:76-80 | four sync bytes restore the frame boundary exactly from those states in which the card reads its buffer |
| Protocol.BlockReplacesPatch | voicecard/voicecard_rx.h:152-166 | bulk command, size and 112 bytes over the link replace the patch and nothing else |
| CardReceiver.Receiver.Receive | voicecard/voicecard_rx.h:61-68 | the interrupt appends a byte to a backlog below 255 and leaves parser and copies alone |
| CardReceiver.Receiver.DoLongCommand | voicecard/voicecard_rx.h:81-121 | arguments reach the card's copies or its sound engine as the protocol says |
| CardReceiver.Receiver.DoShortCommand | voicecard/voicecard_rx.h:123-166 | so do the commands without arguments; the bulk command stops the main loop |
| CardReceiver.Receiver.Process | voicecard/voicecard_rx.h:191-216 | the loop feeds the parser with the backlog in order and stops only when it is empty or a block is announced |
| CardReceiver.Receiver.ReceiveBlock | voicecard/voicecard_rx.h:152-166 | a block of any size is taken from the link; bytes beyond the patch are dropped |
| CardTransmitter.Transmitter.SendBytes | controller/voicecard_tx.h:132-151 | the queues take turns; an empty one lets its turn pass |
| CardTransmitter.Transmitter.Write | controller/voicecard_tx.cc:148-157 | the byte becomes the last one of its card, whatever the timer does while a full queue is waited for |
| CardTransmitter.Transmitter.Trigger | controller/voicecard_tx.cc:82-89 | exactly the bytes of the command are added for that card |
| CardTransmitter.Transmitter.WriteData | controller/voicecard_tx.cc:91-96 | exactly three bytes are added for that card |
| CardTransmitter.Transmitter.WriteLfo | controller/voicecard_tx.cc:98-102 | exactly the bytes of the command are added for that card |
| CardTransmitter.Transmitter.Release | controller/voicecard_tx.h:73-76 | the command is added and the card counts as silent |
| CardTransmitter.Transmitter.Kill | controller/voicecard_tx.h:78-81 | the command is added and the card counts as silent |
| CardTransmitter.Transmitter.Sync | controller/voicecard_tx.cc:76-80 | four sync bytes follow everything written before, and the queues end up empty |
| CardTransmitter.Transmitter.FlushBuffers | controller/voicecard_tx.cc:134-136 | waiting ends with empty queues and every card's bytes in order |
| CardTransmitter.Transmitter.WriteBlock | controller/voicecard_tx.cc:50-59 | size and data follow everything written before |
| CardTransmitter.TickKeepsStream | controller/voicecard_tx.h:132-151 | a timer tick changes no card's sequence of bytes |
| CardTransmitter.AfterKeepsStream | controller/voicecard_tx.h:132-151 | neither do any number of ticks |
| Replica.SetValueKeeps | controller/part.cc:291-314 | the bytes of one edit turn an equal copy into an equal copy, and other cards hear nothing that matters |
| Replica.AfterTouchPatch | controller/part.cc:177-191 | announcing and writing the blocks replaces the patch of every listed card |
| Replica.AfterTouch | controller/part.cc:161-169 | the seven writes bring every listed card's settings up to date |
| Replica.LoadSettingsKeeps | controller/part.cc:161-175 | loaded settings arrive and a changed mode only silences |
| Replica.AssignKeeps | controller/multi.cc:122-126 | after a reassignment every part's new cards get its whole state, whoever owned them before |
| Replica.AssignedCardsAreValid | controller/part.cc:244-253 | conflict-free masks give every part cards of its own |
| Replica.PlayKeeps | controller/voicecard_tx.cc:82-89 | note, modulation and LFO commands leave the copies alone |
| Replica.InterruptKeepsFlight | controller/voicecard_tx.h:132-151 | a transmit interrupt moves a byte from queue to backlog and changes nothing in flight |
| Replica.DigestKeepsSettled | voicecard/voicecard_rx.h:191-216 | a byte digested by the card was the next one in flight |
| Replica.TransferKeepsSettled | controller/voicecard_tx.cc:50-59 | so was a byte of a block written over the link |
| Replica.StepKeepsInv | controller/part.cc:161-314 | every step of main loop, interrupts and cards keeps all cards in agreement with their owners |
| Replica.CardPlusFlightIsOwner | controller/part.cc:161-314 | at any moment of any run, a card plus everything in flight for it is its owner's patch and settings |
| Replica.DrainedMeansEqual | controller/part.cc:161-314 | when everything has drained, every copy is equal to its owner's state |
| History.OperationChangesParts | controller/part.cc:291-314 | an operation of the main loop writes its values to its part, gives out the cards of its masks, and leaves every other byte, part and owner as it was |
| History.OperationChangesMode | controller/part.cc:171-174 | the mode that the allocators are set up for follows the byte that says it |
| History.OperationTells | controller/part.cc:291-314 | what a card will have been told grows by what the operation means for it: the action of a command, or the end of its note when its part changes mode or the cards are given out again |
| History.BytesAreLastWritten | controller/part.cc:291-314 | over any run every byte of a part is the last one written to it |
| History.CardsAreLastGiven | controller/multi.cc:122-126 | and every part owns the cards of the last mask it was given |
| History.CardsAreTold | controller/part.cc:161-314 | and every card, with what is on its way, has been told what all operations meant for it, in their order |
| History.DrainedIsTold | controller/part.cc:161-314 | just that once everything has drained |
| History.DrainedIsLastWritten | controller/part.cc:161-314 | once everything has drained a card that a part was last given holds the last values written to that part |
| Replica.NeverStuck | controller/voicecard_tx.cc:50-59 | whenever something is outstanding a step other than a new operation is possible and brings the system closer to rest; no wait for empty queues or a stopped card is in vain |
| Replica.CanDrain | controller/voicecard_tx.cc:134-136 | from every reachable state the outstanding steps lead to one where everything has drained |
| MidiParser.Parser.PushByte | midi/midi.h:110-166 | state and device calls are those of the parser on values; a real-time byte makes the call that it says and leaves the state; the data array is never overrun |
| MidiParser.Parser.MessageReceived | midi/midi.h:169-283 | one complete message makes the one call that its bytes say, or none on a channel that is not accepted |
| MidiParser.SaidIsCalled | midi/midi.h:186-245 | a channel message makes the call that the standard gives it |
| MidiParser.RealtimeIsSaid | midi/midi.h:258-280 | a real-time byte makes the one call that the standard gives it, and the two undefined ones none |
| MidiParser.MessagesAreCalled | midi/midi.h:110-166 | any list of channel messages with any legal running status yields exactly its calls, whatever was received before |
| MidiParser.RealtimeIsTransparent | midi/midi.h:111-115 | real-time bytes inserted anywhere change neither the other calls nor the state, and the calls made for them are what they say, in order |
| MidiParser.SysExIsPassedOn | midi/midi.h:143-155 | a system exclusive message is passed on byte by byte from any state |
| Objects.WriteThenRead | controller/storage.cc:199-216 | what is stored in an object is read back and nothing outside it changes |
| Objects.PatchAndSettingsArePart | controller/storage.cc:290-305 | patch and settings together are every byte of a part |
| Objects.ObjectsInOrder | controller/storage.cc:290-346 | a multi goes first, and then the patch and the settings of each part, under the number of the part |
| Objects.TouchKeepsConflictFree | controller/multi.cc:145-150 | refreshing leaves the multi as it was exactly when no two parts claim the same card |
| Objects.ConflictingMultiChanges | controller/multi.cc:145-150 | two parts that both claim the first card do not both keep it |
| Objects.MultiIsRestoredExactly | controller/storage.cc:321-346 | a restored multi equals its source exactly when no two parts claim the same card; the parts always do |
| SysEx.SysExSendRaw | controller/storage.cc:354-387 | header, command, argument, the nibbles of data and sum, end |
| SysEx.Receiver.SysExReceive | controller/storage.cc:853-909 | every byte makes the receiver's step, accepted messages included |
| SysEx.Receiver.SysExParseCommand | controller/storage.cc:699-753 | the size for every known command; an unknown one leaves the old size |
| SysEx.SizeIsAnnounced | controller/storage.cc:699-753 | the size that each command announces, requests included |
| SysEx.AcceptedExactly | controller/storage.cc:853-909 | a framed message is acted on exactly when it is a dump or repeats an old one by accident |
| SysEx.ForeignMessageRepeats | controller/storage.cc:870-906 | from any state, after the dump of a patch of zeros the foreign message F0 7E F7 makes the receiver store the patch again |
| SysEx.DumpIsAccepted | controller/storage.cc:853-909 | every dump is accepted from any state, with its data in the buffer |
| SysEx.DamagedDumpIsRejected | controller/storage.cc:882-906 | changing one data or checksum byte makes the dump rejected exactly when its lower half changes |
| Dumps.SysExSend | controller/storage.h:139-141 | the dumps of all objects of a location, in order |
| Dumps.DumpNamesItsObject | controller/storage.cc:349-387 | the seventh and eighth byte of a dump say which object of which part it is |
| Dumps.DumpsAreDelivered | controller/midi_dispatcher.h:176-190 | parser and dispatcher hand the receiver exactly the bytes that were sent |
| Dumps.DumpsAreReceived | controller/storage.cc:853-909 | a sequence of dumps is accepted one by one |
| Dumps.DumpRestores | controller/storage.cc:349-387 | a dump of any object, with real-time bytes anywhere and from any state, ends in reception with the object restored |
| Riff.Save | controller/storage.cc:515-577 | the file is header, name chunk and one chunk per object |
| Riff.HeaderSizeIsExact | controller/storage.cc:163-176 | the size in the header is the number of bytes after it, for every kind |
| Riff.FileBegins | controller/storage.cc:515-577 | tags, name chunk and the first object chunk are at their places |
| Riff.ChunkNamesItsObject | controller/storage.cc:392-411 | the first two bytes of an object chunk say which object of which part it is |
| Riff.RefusedExactly | controller/storage.cc:442-457 | a file is refused exactly when its twelve bytes of header are not there with both tags, whatever the buffers held, and then nothing is loaded |
| Riff.Loader.Load | controller/storage.cc:413-512 | status, memory and name are those of loading on the bytes of the file, short reads included |
| Riff.Loader.ReadChunk | controller/storage.cc:464-502 | one round of the loop: identifier, size, and the chunk's effect |
| Riff.ChunkLoaded | controller/storage.cc:464-502 | a chunk that fits is read to its end and has its effect |
| Riff.NameChunkBringsLetters | controller/storage.cc:486-497 | a name chunk brings the letters there is room for, and a short one leaves the end of the old name |
| Riff.ChunksLoaded | controller/storage.cc:464-502 | loading any list of fitting chunks applies them one after the other |
| Riff.SaveThenLoad | controller/storage.cc:413-577 | saving from one part and loading into another restores every byte and the name, and nothing else changes |
| Riff.IgnoredChunksDoNotMatter | controller/storage.cc:498-500 | unknown chunks anywhere change nothing |
| Riff.SaveInsertThenLoad | controller/storage.cc:413-577 | the round trip holds with unknown chunks inserted anywhere |
| Riff.MisfitOvershoots | controller/storage.cc:470-500 | an object chunk of a wrong size, however short, is not read, but loading goes on four bytes too far, harmless only at the end of the file |
| Riff.MisfitHidesName | controller/storage.cc:470-500 | the name chunk after such a chunk goes unread |
| Portamento.Voice.Trigger | voicecard/voice.cc:182-211 | a first or restarted note starts on its pitch, any other where the pitch is; target and increment in 16-bit arithmetic |
| Portamento.Voice.ApplyPortamento | voicecard/voice.cc:400-405 | one block moves the pitch or sets it on the target |
| Portamento.IncrementHasSignOfDelta | voicecard/voice.cc:198-209 | the increment is never 0, has the sign of the distance and is at most the whole of it |
| Portamento.IncrementIsFraction | voicecard/voice.cc:198-209 | it is the fraction of the distance that the rate says, rounded down, and one where that is 0 |
| Portamento.GlideTakesItsTime | voicecard/voice.cc:182-211 | going up takes at least, and going down at most one block more than, 65536 divided by the rate |
| Portamento.RestsExactly | voicecard/voice.cc:400-405 | a glide is at rest exactly from the block on that crosses its target |
| Portamento.NoteStartGlides | voicecard/voice.cc:182-211 | for any note start at any pitch and rate: the pitch moves monotonically, arrives within distance+1 blocks and stays, exactly when the crossing sum computed from value, target and increment is noticed in 16 bits |
| Portamento.TowardsGlidesHome | voicecard/voice.cc:400-405 | a glide towards its target comes home exactly when the sum that crosses it is a 16-bit number |
| Portamento.AwayGlidesHome | voicecard/voice.cc:198-209 | for distances beyond 16 bits the increment leads away, and only the first sum decides |
| Portamento.SentPitchesGlide | controller/part.cc:680-765 | between the pitches a controller can send a glide fails exactly at portamento time 0 when twice the target less the start reaches 32770 |
| Portamento.SentPitchRange | controller/part.cc:680-692 | the pitches sent lie between -191 and 16605 |
| Portamento.PitchScale | controller/part.cc:680-692 | neighbouring notes are 128 apart, and an octave is twelve of them |
| Portamento.TopNoteOverflows | voicecard/voice.cc:400-405 | from 327 to 16583, note 0 to 127 at the largest tuning and spread, at portamento time 0 the second block lands at -32699 |
| Envelope.MixBounds | avrlib/op.h:254-269 | the 16-bit mix lies between 255 times its ends |
| Envelope.Envelope.Trigger | voicecard/envelope.h:55-64 | a stage starts from where the value is |
| Envelope.Envelope.Update | voicecard/envelope.h:66-74 | attack, decay and release get the increments of their own times, the sustain level changes, the current segment does not |
| Envelope.Envelope.Render | voicecard/envelope.h:76-88 | the phase advances and the segment ends on overflow; stages beyond the last are never reached |
| Envelope.StagesTakeTheirTime | voicecard/envelope.h:55-88 | after an update attack, decay and release each last exactly until as many increments of their own time have filled the phase, and head for full level, the sustain level and silence |
| Envelope.InterpolateIsBetween | avrlib/op.h:786-791 | an interpolated curve is the curve on its knots and lies between them elsewhere |
| Envelope.SegmentIsMonotone | voicecard/envelope.h:76-88 | with a curve that rises a segment moves from its start to its end without turning back |
| Envelope.RunIsNearSegment | voicecard/envelope.h:55-88 | over any run of triggers, updates and renders from the start the value is never below its segment and at most 508 above it; what a render of a moving or dead envelope leaves is inside |
| Envelope.RunStaysNear | voicecard/envelope.h:55-88 | so it is from any state that is near its segment |
| Envelope.TriggerIsInSegment | voicecard/envelope.h:55-64 | after a trigger the value is inside exactly when it is 0 or the target leaves room for its low byte |
| Envelope.SustainIsInSegment | voicecard/envelope.h:78-82 | on entering sustain it does exactly when the level was not lowered since the decay began |
| Envelope.LoweredSustainLeavesSegment | voicecard/envelope.h:66-88 | a run from the start: attack, a level lowered from 200 to 100 during the decay, and the value stays outside its sustain segment |
| Envelope.SegmentStartsAtValue | voicecard/envelope.h:55-64 | a trigger makes no jump: the new segment starts within 510 below the value |
| Envelope.EnvelopeRests | voicecard/envelope.h:76-88 | with positive increments an attack ends in a constant sustain and a release in silence, within a bounded number of renders |
| Envelope.TriggerMoves | voicecard/envelope.h:55-74 | after any update from the table a trigger starts a moving envelope |

## Left out

- Display, switches, LEDs, diagnostics, FatFs, SPI and UART registers, EEPROM and delays: plumbing. A file is its bytes and a position, the link loses nothing.
- Oscillators, filters, LFOs and the modulation matrix: sound without a crisp specification. Tables enter as arbitrary tables with the needed facts.
- The pitch of a note (octave, raga, tuning): a trigger carries the note and its detuning. LFO retriggering is not modelled.
- `Part` is modelled in three classes, `Keyboard.Keys`, `PartVoices.Voices` and `Generator.NoteGenerator`, put together in `Part.Part`; `Keys` records the calls it makes on the sounding side, and they are carried out after it returns. The flat 196 bytes of patch and settings are in `Replica` and `Objects`.
- Replica assumes fewer than 256 bytes of backlog per card, an atomic arrival of a card at its block receive loop before the block is written, and no `COMMAND_RESET`. The LFO and clock side of `Touch`, version queries, lights-out and firmware update are not modelled.
- `Part::Aftertouch(note, velocity)`, `MonoModeOn` and `PolyModeOn`, `Part::Start` as a note boundary, and the chord sequencer's own clock, which presses and releases keys.
- The clock that drives the generators: how often a step is due, pattern masks and sequence positions are parameters.
- `RingBuffer2::isWritable` with its callers, `Flush`, and the MIDI output modes.
- The raw message trace, `BozoByte` and the length of the undefined status 0xF1 in the MIDI parser.
- Answers to system exclusive requests, `SYSEX_POKE_COMMAND`, and a received program dump, which the firmware would write through a null pointer: `Store` and `LoadObject` report such writes and end there.
- Opening, naming and backing up files, and chunk sizes that carry the 32-bit file position past its end.
- PartVoices.Voices.AllSoundOff: the pressed keys that the same lines clear are not in this class; `Part.Part.AllSoundOff` clears them.
- PartVoices.Voices.SetPolyphonyMode: likewise; `Part.Part.SetPolyphonyMode` clears the pressed keys.
- PartVoices.Voices.AssignVoices: likewise; `Part.Part.AssignVoices` clears the pressed keys, and the refresh of patch and settings is in `Replica`.
- PartVoices.Voices.TouchMode: the pressed keys that a changed mode clears are not in this class, and a refresh is not one of the events of `Part`.
- PartVoices.Voices.InternalNoteOn: the pitch of the note and the retriggered LFOs are left out; in CYCLIC mode a voice given note 127 counts as silent, because the allocator cannot tell it from a released one.
- PartVoices.Voices.InternalNoteOff: the pitch that a monophonic mode returns to and the retriggered LFOs are left out.
- Generator.NoteGenerator.ClockNoteSequence: a stray note 0 of a round robin may keep sounding on the part's own cards, as it does in the firmware.
- CardReceiver.Receiver.DoShortCommand: the lights-out, version, headroom and firmware update commands change none of the copies and count as doing nothing.
- Part.Part.Play: where each key is stopped by itself (STEP, or the arpeggiator with CHORD) the pedal's release stops the notes in the order of their slots, which the keys alone do not tell, so what MIDI out was told is followed up to which notes it leaves on; notes forwarded to the next unit of a chain are not counted.
- Part.Part.Clock: in every mode but the chord sequencer's.
