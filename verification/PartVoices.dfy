/**
 How a part turns notes into commands for the voice cards it owns.  The monophonic note stack and the
 polyphonic allocator share one block of 24 bytes; the polyphony mode says which of them it holds.
 */
module PartVoices {
  import opened Arithmetic
  import opened Bytes
  import NS = NoteStack
  import VA = VoiceAllocator
  import Ownership

  datatype PolyphonyMode = Mono | Poly | Solo | Unison2x | Cyclic | Chain

  /** `detune` is what is added to the pitch that the part's tuning gives the note. */
  datatype Command = Trigger(note: byte, detune: nat, velocity: byte, legato: bool) | Release | Kill

  /** The calls a part makes: to a voice card, to MIDI out, or to the next unit of a chain. */
  datatype Call =
    | ToCard(card: byte, command: Command)
    | NoteOut(note: byte, velocity: byte)
    | ForwardNote(note: byte, velocity: byte)

  predicate Monophonic(mode: PolyphonyMode) {
    mode.Mono? || mode.Solo?
  }

  /** The number of voices the allocator manages for a number of cards. */
  function AllocatorSize(mode: PolyphonyMode, num: byte): (size: byte)
    requires num <= 6
    ensures size <= 12
  {
    match mode
    case Unison2x => (num + 1) / 2
    case Chain => 2 * num
    case _ => num
  }

  function Following(index: nat, num: nat): (next: nat)
    ensures num > 0 ==> next < num
  {
    if index + 1 < num then index + 1 else 0
  }

  /** The cards that play one voice of the allocator. */
  function Targets(mode: PolyphonyMode, cards: seq<byte>, voice: byte): (targets: seq<byte>)
    requires |cards| <= 6
    ensures forall card :: card in targets ==> card in cards
  {
    if mode.Unison2x? then
      if voice < AllocatorSize(mode, |cards|) then [cards[2 * voice], cards[Following(2 * voice as int, |cards|)]]
      else []
    else if voice as int < |cards| then [cards[voice]]
    else []
  }

  function Triggers(
      mode: PolyphonyMode, targets: seq<byte>, voice: byte, spread: byte, note: byte, velocity: byte): seq<Call> {
    seq(|targets|, i requires 0 <= i < |targets| =>
      var detune := if mode.Unison2x? then i * spread as int else voice as int * spread as int;
      ToCard(targets[i], Trigger(note, detune, velocity, false)))
  }

  /** The drift of a monophonic stack is kept in eight bits. */
  function MonoTriggers(cards: seq<byte>, spread: byte, note: byte, velocity: byte, legato: bool): (calls: seq<Call>)
    ensures |calls| == |cards|
  {
    seq(|cards|,
        i requires 0 <= i < |cards| => ToCard(cards[i], Trigger(note, i * spread as int % 256, velocity, legato)))
  }

  lemma DriftStep(i: nat, spread: byte)
    ensures (i * spread as int % 256 + spread as int) % 256 == (i + 1) * spread as int % 256
  {
    Distribute(i, spread);
    AddMod(i * spread as int, spread);
  }

  function ToAll(cards: seq<byte>, command: Command): (calls: seq<Call>)
    ensures |calls| == |cards| && EachTold(calls, cards, command)
  {
    seq(|cards|, i requires 0 <= i < |cards| => ToCard(cards[i], command))
  }

  /** Each card in turn, and no other, hears the command once. */
  predicate EachTold(calls: seq<Call>, cards: seq<byte>, command: Command) {
    |calls| == |cards| && forall i :: 0 <= i < |cards| ==> calls[i] == ToCard(cards[i], command)
  }

  /** Releasing the last key lets the sound fade; releasing the top key brings back the one below it. */
  function MonoReleases(cards: seq<byte>, spread: byte, keys: seq<NS.Key>, note: byte): seq<Call> {
    var left := NS.Release(keys, note);
    if left == [] then ToAll(cards, Release)
    else if keys[0].note == note then MonoTriggers(cards, spread, left[0].note, Low7(left[0].velocity), true)
    else []
  }

  /** Each card in turn plays the note, every one detuned by the spread more than the one before it, in eight bits. */
  ghost predicate EachTriggered(
      calls: seq<Call>, cards: seq<byte>, spread: byte, note: byte, velocity: byte, legato: bool) {
    && |calls| == |cards|
    && forall i :: 0 <= i < |cards| ==>
         && calls[i].ToCard? && calls[i].card == cards[i]
         && calls[i].command == Trigger(note, i * spread as int % 256, velocity, legato)
  }

  /** The player holds another key. */
  ghost predicate HoldsAnother(keys: seq<NS.Key>, note: byte) {
    exists k :: 0 <= k < |keys| && keys[k].note != note
  }

  /**
   What the cards hear when a key is released: if it is the most recent one, the one pressed before it comes back
   without a new attack; if it was the last one, they fade; otherwise nothing.
   */
  ghost predicate HearRelease(calls: seq<Call>, cards: seq<byte>, spread: byte, keys: seq<NS.Key>, note: byte) {
    if keys != [] && keys[0].note == note && |keys| > 1 then
      EachTriggered(calls, cards, spread, keys[1].note, Low7(keys[1].velocity), true)
    else if HoldsAnother(keys, note) then calls == []
    else EachTold(calls, cards, Release)
  }

  /**
   What is heard of one voice: it has a card of its own, or in UNISON_2X two neighbouring ones, of which the second
   is detuned; further voices of a chain are the next unit's.
   */
  ghost predicate HearVoice(
      calls: seq<Call>, mode: PolyphonyMode, cards: seq<byte>, voice: byte, spread: byte, note: byte, velocity: byte) {
    var v, n := voice as int, |cards|;
    if mode.Unison2x? then
      calls == if 2 * v >= n then [] else
                 [ToCard(cards[2 * v], Trigger(note, 0, velocity, false)),
                  ToCard(cards[if 2 * v + 1 < n then 2 * v + 1 else 0], Trigger(note, spread as int, velocity, false))]
    else if v < n then calls == [ToCard(cards[v], Trigger(note, v * spread as int, velocity, false))]
    else calls == if mode.Chain? then [ForwardNote(note, velocity)] else []
  }

  ghost predicate HearVoiceFade(calls: seq<Call>, mode: PolyphonyMode, cards: seq<byte>, voice: byte, note: byte) {
    var v, n := voice as int, |cards|;
    if mode.Unison2x? then
      calls == if 2 * v >= n then [] else
                 [ToCard(cards[2 * v], Release), ToCard(cards[if 2 * v + 1 < n then 2 * v + 1 else 0], Release)]
    else if v < n then calls == [ToCard(cards[v], Release)]
    else calls == if mode.Chain? then [ForwardNote(note, 0)] else []
  }

  lemma VoiceIsHeard(mode: PolyphonyMode, cards: seq<byte>, voice: byte, spread: byte, note: byte, velocity: byte)
    requires |cards| <= 6
    ensures HearVoice(Triggers(mode, Targets(mode, cards, voice), voice, spread, note, velocity) +
                      Forwarded(mode, cards, voice, note, velocity), mode, cards, voice, spread, note, velocity)
    ensures HearVoiceFade(ToAll(Targets(mode, cards, voice), Release) + Forwarded(mode, cards, voice, note, 0),
                          mode, cards, voice, note)
  {
  }

  /** What was added behind the note told to MIDI out. */
  ghost function Since(before: seq<Call>, after: seq<Call>): seq<Call> {
    if |before| < |after| then after[|before| + 1..] else []
  }

  lemma SinceIs(before: seq<Call>, out: Call, some: seq<Call>, more: seq<Call>)
    ensures Since(before, before + [out] + some) == some
    ensures Since(before, before + [out] + some + more) == some + more
  {
  }

  lemma MonoReleasesAre(cards: seq<byte>, spread: byte, keys: seq<NS.Key>, note: byte)
    requires NS.DistinctNotes(keys)
    ensures HearRelease(MonoReleases(cards, spread, keys, note), cards, spread, keys, note)
  {
    if keys != [] && keys[0].note != note {
      assert HoldsAnother(keys, note);
    }
  }

  lemma MonoTriggersAre(cards: seq<byte>, spread: byte, keys: seq<NS.Key>, note: byte, velocity: byte)
    requires NS.DistinctNotes(keys)
    ensures EachTriggered(MonoTriggers(cards, spread, note, velocity, |NS.Press(keys, 7, NS.Key(note, velocity))| > 1),
                          cards, spread, note, velocity, HoldsAnother(keys, note))
  {
    var k := NS.ReleaseCases(keys, note);
    var others := NS.Release(keys, note);
    if others != [] {
      assert others[0] == keys[if k == 0 then 1 else 0];
    }
  }

  /** Notes that no owned voice can play go to the next unit of a chain. */
  function Forwarded(mode: PolyphonyMode, cards: seq<byte>, voice: byte, note: byte, velocity: byte): seq<Call> {
    if mode.Chain? && voice as int >= |cards| then [ForwardNote(note, velocity)] else []
  }

  lemma VoiceCalls(mode: PolyphonyMode, cards: seq<byte>, voice: byte, spread: byte, note: byte, velocity: byte)
    requires |cards| <= 6
    ensures Triggers(mode, Targets(mode, cards, voice), voice, spread, note, velocity) +
            Forwarded(mode, cards, voice, note, velocity) ==
            if mode.Unison2x? then
              if voice < AllocatorSize(mode, |cards|) then
                [ToCard(cards[2 * voice], Trigger(note, 0, velocity, false)),
                 ToCard(cards[Following(2 * voice as int, |cards|)], Trigger(note, spread as int, velocity, false))]
              else []
            else if voice as int < |cards| then
              [ToCard(cards[voice], Trigger(note, voice as int * spread as int, velocity, false))]
            else if mode.Chain? then [ForwardNote(note, velocity)]
            else []
  {
  }

  ghost predicate OnlyTo(calls: seq<Call>, cards: seq<byte>) {
    forall i :: 0 <= i < |calls| && calls[i].ToCard? ==> calls[i].card in cards
  }

  /** The note-on guard: a note that already sounds keeps its voice. */
  ghost function PolyOn(s: VA.State, note: byte): (r: (VA.State, byte))
    requires VA.WellFormed(s) && note < 128
  {
    var active := VA.ActiveHolder(s.pool, note, 0);
    if active != VA.NO_VOICE then (s, active) else VA.On(s, note)
  }

  ghost function SoundingNotes(pool: seq<byte>): set<byte> {
    set v | 0 <= v < |pool| && HighBit(pool[v]) :: Low7(pool[v])
  }

  /** In a round robin a released voice looks like one that sounds note 127, and counts as silent. */
  ghost function RoundRobinNotes(pool: seq<byte>): set<byte> {
    set v | 0 <= v < |pool| && HighBit(pool[v]) && pool[v] != 0xff :: Low7(pool[v])
  }

  /** The note-off of note 0 meets a voice that was never used before the one that sounds it. */
  ghost predicate MeetsUnused(pool: seq<byte>, note: byte)
    requires |pool| < 255
  {
    var voice := VA.Holder(pool, note);
    note in RoundRobinNotes(pool) && voice != VA.NO_VOICE && pool[voice] == 0
  }

  lemma OnlyNoteZeroMeetsUnused(pool: seq<byte>, note: byte)
    requires |pool| < 255
    ensures MeetsUnused(pool, note) ==> note == 0
  {
  }

  lemma PolyOnSoundsInTurn(s: VA.State, note: byte)
    requires VA.WellFormed(s) && s.cyclic != 0xff && VA.CyclicExclusive(s.pool) && note < 128
    ensures VA.CyclicExclusive(PolyOn(s, note).0.pool)
    ensures RoundRobinNotes(PolyOn(s, note).0.pool) <= RoundRobinNotes(s.pool) + {note}
  {
    hide *;
    PolyOnCases(s, note);
    PolyOnAdds(s, note);
    if VA.ActiveHolder(s.pool, note, 0) == VA.NO_VOICE {
      VA.CyclicOnKeepsExclusive(s, note);
    }
  }

  /** A round robin's note-off silences its note and no other, exactly unless it meets an unused voice. */
  lemma OffSilencesInTurn(s: VA.State, note: byte)
    requires VA.WellFormed(s) && s.cyclic != 0xff && VA.CyclicExclusive(s.pool) && note < 128
    ensures var after := VA.Off(s, note).0.pool;
            && VA.CyclicExclusive(after)
            && (MeetsUnused(s.pool, note) ==> RoundRobinNotes(after) == RoundRobinNotes(s.pool))
            && (RoundRobinNotes(after) == RoundRobinNotes(s.pool) - {note} <==> !MeetsUnused(s.pool, note))
  {
    VA.CyclicStepKeepsExclusive(s, VA.NoteOff(note));
    var (s', voice) := VA.Off(s, note);
    hide VA.CyclicExclusive, VA.Holder, RoundRobinNotes, MeetsUnused;
    if voice == VA.NO_VOICE {
      NobodyHolds(s.pool, note);
    } else {
      VoiceFreed(s.pool, note);
    }
  }

  lemma NobodyHolds(pool: seq<byte>, note: byte)
    requires |pool| < 255 && VA.Holder(pool, note) == VA.NO_VOICE
    ensures note !in RoundRobinNotes(pool) && !MeetsUnused(pool, note)
  {
  }

  lemma VoiceFreed(pool: seq<byte>, note: byte)
    requires |pool| < 255 && VA.CyclicExclusive(pool) && VA.Holder(pool, note) != VA.NO_VOICE && note < 128
    ensures var freed := pool[VA.Holder(pool, note) := 0xff];
            && (MeetsUnused(pool, note) ==> RoundRobinNotes(freed) == RoundRobinNotes(pool))
            && (RoundRobinNotes(freed) == RoundRobinNotes(pool) - {note} <==> !MeetsUnused(pool, note))
  {
    var voice := VA.Holder(pool, note);
    var freed := pool[voice := 0xff];
    if HighBit(pool[voice]) && pool[voice] != 0xff {
      SoundingVoiceFreed(pool, voice);
    } else {
      SilentVoiceFreed(pool, voice);
    }
  }

  lemma SoundingVoiceFreed(pool: seq<byte>, voice: byte)
    requires |pool| < 255 && VA.CyclicExclusive(pool) && voice as int < |pool| && 128 <= pool[voice] < 0xff
    ensures RoundRobinNotes(pool[voice := 0xff]) == RoundRobinNotes(pool) - {Low7(pool[voice])}
    ensures Low7(pool[voice]) in RoundRobinNotes(pool)
  {
    var freed := pool[voice := 0xff];
    forall v | 0 <= v < |pool| && v != voice as int && HighBit(pool[v]) && pool[v] != 0xff
      ensures Low7(pool[v]) != Low7(pool[voice]) && Low7(freed[v]) in RoundRobinNotes(freed)
    {
      assert pool[v] != pool[voice];
    }
  }

  lemma SilentVoiceFreed(pool: seq<byte>, voice: byte)
    requires voice as int < |pool| && (!HighBit(pool[voice]) || pool[voice] == 0xff)
    ensures RoundRobinNotes(pool[voice := 0xff]) == RoundRobinNotes(pool)
  {
    var freed := pool[voice := 0xff];
    forall v | 0 <= v < |pool| && HighBit(pool[v]) && pool[v] != 0xff ensures Low7(pool[v]) in RoundRobinNotes(freed) {
      assert freed[v] == pool[v];
    }
  }

  /** Overwriting one voice with a note adds at most that note to what sounds. */
  lemma OneVoiceSounds(before: seq<byte>, after: seq<byte>, voice: byte, note: byte)
    requires |before| == |after| && voice as int < |before| && note < 128 && after[voice] == SetHighBit(note)
    requires forall v :: 0 <= v < |before| && v != voice as int ==> after[v] == before[v]
    ensures SoundingNotes(after) <= SoundingNotes(before) + {note} && note in SoundingNotes(after)
    ensures RoundRobinNotes(after) <= RoundRobinNotes(before) + {note}
  {
    assert HighBit(after[voice]) && Low7(after[voice]) == note;
    forall v | 0 <= v < |after| && v != voice as int && HighBit(after[v])
      ensures Low7(after[v]) in SoundingNotes(before)
    {
      assert after[v] == before[v];
    }
    forall v | 0 <= v < |after| && v != voice as int && HighBit(after[v]) && after[v] != 0xff
      ensures Low7(after[v]) in RoundRobinNotes(before)
    {
      assert after[v] == before[v];
    }
  }

  lemma PolyOnCases(s: VA.State, note: byte)
    requires VA.WellFormed(s) && note < 128
    ensures var active := VA.ActiveHolder(s.pool, note, 0);
            PolyOn(s, note) == if active != VA.NO_VOICE then (s, active) else VA.On(s, note)
    ensures VA.WellFormed(PolyOn(s, note).0) && |PolyOn(s, note).0.pool| == |s.pool|
    ensures PolyOn(s, note).0.cyclic == 0xff <==> s.cyclic == 0xff
  {
  }

  lemma ActiveSounds(pool: seq<byte>, note: byte)
    requires |pool| < 255 && VA.ActiveHolder(pool, note, 0) != VA.NO_VOICE
    ensures note in SoundingNotes(pool)
  {
    var voice := VA.ActiveHolder(pool, note, 0);
    assert HighBit(pool[voice]) && Low7(pool[voice]) == note;
  }

  /** With the guard a note-on adds at most its own note to what sounds. */
  lemma PolyOnAdds(s: VA.State, note: byte)
    requires VA.WellFormed(s) && note < 128
    ensures SoundingNotes(PolyOn(s, note).0.pool) <= SoundingNotes(s.pool) + {note}
    ensures RoundRobinNotes(PolyOn(s, note).0.pool) <= RoundRobinNotes(s.pool) + {note}
    ensures s.pool != [] ==> note in SoundingNotes(PolyOn(s, note).0.pool)
  {
    hide VA.On, SoundingNotes, RoundRobinNotes, PolyOn, VA.ActiveHolder;
    PolyOnCases(s, note);
    if VA.ActiveHolder(s.pool, note, 0) != VA.NO_VOICE {
      ActiveSounds(s.pool, note);
    } else if s.pool != [] {
      OneVoiceSounds(s.pool, VA.On(s, note).0.pool, VA.On(s, note).1, note);
    }
  }

  lemma PolyOnSounds(s: VA.State, note: byte)
    requires VA.WellFormed(s) && s.cyclic == 0xff && VA.Exclusive(s.pool) && note < 128
    ensures VA.WellFormed(PolyOn(s, note).0) && VA.Exclusive(PolyOn(s, note).0.pool)
    ensures SoundingNotes(PolyOn(s, note).0.pool) <= SoundingNotes(s.pool) + {note}
    ensures s.pool != [] ==> note in SoundingNotes(PolyOn(s, note).0.pool)
  {
    hide *;
    PolyOnCases(s, note);
    PolyOnAdds(s, note);
    VA.OnKeepsExclusive(s, note);
  }

  lemma OffIsWellFormed(s: VA.State, note: byte)
    requires VA.WellFormed(s) && note < 128
    ensures VA.WellFormed(VA.Off(s, note).0) && (VA.Off(s, note).0.cyclic == 0xff <==> s.cyclic == 0xff)
  {
  }

  lemma ClearedIsSilent(pool: seq<byte>)
    requires forall v :: 0 <= v < |pool| ==> pool[v] == 0
    ensures SoundingNotes(pool) == {} == RoundRobinNotes(pool)
  {
  }

  lemma OffSilences(s: VA.State, note: byte)
    requires VA.WellFormed(s) && s.cyclic == 0xff && VA.Exclusive(s.pool) && note < 128
    ensures VA.Exclusive(VA.Off(s, note).0.pool)
    ensures SoundingNotes(VA.Off(s, note).0.pool) == SoundingNotes(s.pool) - {note}
  {
    VA.OffKeepsExclusive(s, note);
    var (s', voice) := VA.Off(s, note);
    forall v | 0 <= v < |s.pool|
      ensures v != voice as int ==> s'.pool[v] == s.pool[v] && (HighBit(s.pool[v]) ==> Low7(s.pool[v]) != note)
      ensures v == voice as int ==> !HighBit(s'.pool[v]) && Low7(s.pool[v]) == note
    {
    }
    forall n | n in SoundingNotes(s.pool) - {note} ensures n in SoundingNotes(s'.pool) {
      var v :| 0 <= v < |s.pool| && HighBit(s.pool[v]) && Low7(s.pool[v]) == n;
      assert s'.pool[v] == s.pool[v];
    }
  }

  // ---- Ownership ----

  lemma OnlyToBoth(a: seq<Call>, b: seq<Call>, cards: seq<byte>)
    ensures OnlyTo(a + b, cards) <==> OnlyTo(a, cards) && OnlyTo(b, cards)
  {
    forall i | 0 <= i < |a| ensures a[i] == (a + b)[i] {
    }
    forall i | 0 <= i < |b| ensures b[i] == (a + b)[|a| + i] {
    }
  }

  /** The calls made since go to these cards only. */
  ghost predicate StaysHome(before: seq<Call>, after: seq<Call>, cards: seq<byte>) {
    before <= after && OnlyTo(after[|before|..], cards)
  }

  lemma StaysHomeAdding(before: seq<Call>, some: seq<Call>, more: seq<Call>, cards: seq<byte>)
    ensures StaysHome(before, before + some + more, cards) <==> OnlyTo(some + more, cards)
  {
    assert before + some + more == before + (some + more);
    assert (before + (some + more))[|before|..] == some + more;
  }

  lemma StaysHomeAfter(before: seq<Call>, out: Call, after: seq<Call>, cards: seq<byte>)
    requires !out.ToCard? && before + [out] <= after
    ensures StaysHome(before, after, cards) <==> StaysHome(before + [out], after, cards)
  {
    var more := after[|before| + 1..];
    assert after[|before|..] == [out] + more;
    OnlyToBoth([out], more, cards);
  }

  /** The calls made since tell MIDI out nothing. */
  ghost predicate AddsQuietly(before: seq<Call>, after: seq<Call>) {
    before <= after && forall i :: |before| <= i < |after| ==> !after[i].NoteOut?
  }

  lemma AddsQuietlyBoth(before: seq<Call>, some: seq<Call>, more: seq<Call>)
    requires AddsQuietly([], some) && AddsQuietly([], more)
    ensures AddsQuietly(before, before + some) && AddsQuietly(before, before + some + more)
  {
  }

  lemma AddsToOne(before: seq<Call>, out: Call, after: seq<Call>)
    ensures AddsQuietly(before + [out], after) ==> before + [out] <= after
  {
  }

  lemma CommandsAreQuiet(mode: PolyphonyMode, cards: seq<byte>, voice: byte, spread: byte, note: byte, velocity: byte)
    requires |cards| <= 6
    ensures AddsQuietly([], Triggers(mode, Targets(mode, cards, voice), voice, spread, note, velocity))
    ensures AddsQuietly([], ToAll(Targets(mode, cards, voice), Release))
    ensures AddsQuietly([], Forwarded(mode, cards, voice, note, velocity))
  {
  }

  lemma MonoCommandsAreQuiet(
      cards: seq<byte>, spread: byte, keys: seq<NS.Key>, note: byte, velocity: byte, legato: bool)
    ensures AddsQuietly([], MonoTriggers(cards, spread, note, velocity, legato))
    ensures AddsQuietly([], MonoReleases(cards, spread, keys, note))
    ensures AddsQuietly([], [])
  {
  }

  /** Whatever voice the allocator answers, a polyphonic part addresses its own cards only. */
  lemma PolyphonicCallsStayHome(
      mode: PolyphonyMode, cards: seq<byte>, voice: byte, spread: byte, note: byte, velocity: byte)
    requires |cards| <= 6
    ensures OnlyTo(Triggers(mode, Targets(mode, cards, voice), voice, spread, note, velocity) +
                   Forwarded(mode, cards, voice, note, velocity), cards)
    ensures OnlyTo(ToAll(Targets(mode, cards, voice), Release) + Forwarded(mode, cards, voice, note, 0), cards)
  {
    OnlyToBoth(Triggers(mode, Targets(mode, cards, voice), voice, spread, note, velocity),
               Forwarded(mode, cards, voice, note, velocity), cards);
    OnlyToBoth(ToAll(Targets(mode, cards, voice), Release), Forwarded(mode, cards, voice, note, 0), cards);
  }

  /** Releasing a key that is neither the last one nor the top one changes nothing on the cards. */
  ghost predicate GoesUnheard(keys: seq<NS.Key>, note: byte) {
    NS.Release(keys, note) != [] && keys[0].note != note
  }

  /** A monophonic part addresses all its cards, or in SOLO mode the first entry of its list, if any card at all. */
  lemma MonophonicCallsStayHome(
      cards: seq<byte>, first: byte, spread: byte, keys: seq<NS.Key>, note: byte, velocity: byte, legato: bool)
    ensures OnlyTo(MonoTriggers(cards, spread, note, velocity, legato), cards)
    ensures OnlyTo(MonoReleases(cards, spread, keys, note), cards)
    ensures OnlyTo(MonoTriggers([first], spread, note, velocity, legato), cards) <==> first in cards
    ensures OnlyTo(MonoReleases([first], spread, keys, note), cards) <==> first in cards || GoesUnheard(keys, note)
  {
    assert MonoTriggers([first], spread, note, velocity, legato)[0].ToCard?;
    if !GoesUnheard(keys, note) {
      assert MonoReleases([first], spread, keys, note)[0].ToCard?;
    }
  }

  ghost predicate Disjoint(a: seq<byte>, b: seq<byte>) {
    forall card :: card in a ==> card !in b
  }

  /** Two voices never share a card, except that an odd UNISON part wraps its last pair around to card 0. */
  lemma VoicesShareNoCard(mode: PolyphonyMode, cards: seq<byte>)
    requires |cards| <= 6 && Distinct(cards)
    ensures (forall u: byte, v: byte :: u < v ==> Disjoint(Targets(mode, cards, u), Targets(mode, cards, v))) <==>
            (mode.Unison2x? ==> |cards| % 2 == 0 || |cards| == 1)
  {
    if mode.Unison2x? && |cards| % 2 == 1 && |cards| > 1 {
      var last := (|cards| - 1) as byte / 2;
      assert Targets(mode, cards, 0)[0] == cards[0] == Targets(mode, cards, last)[1];
      assert cards[0] in Targets(mode, cards, 0) && cards[0] in Targets(mode, cards, last);
      assert !Disjoint(Targets(mode, cards, 0), Targets(mode, cards, last));
    } else {
      forall u: byte, v: byte | u < v ensures Disjoint(Targets(mode, cards, u), Targets(mode, cards, v)) {
      }
    }
  }

  /** With three cards, the second UNISON voice takes the first card away from the first voice. */
  lemma OddUnisonSharesACard()
    ensures Targets(Unison2x, [0, 1, 2], 0) == [0, 1] && Targets(Unison2x, [0, 1, 2], 1) == [2, 0]
    ensures !Disjoint(Targets(Unison2x, [0, 1, 2], 0), Targets(Unison2x, [0, 1, 2], 1))
  {
    var first: byte := 0;
    var pair, wrapped := Targets(Unison2x, [0, 1, 2], 0), Targets(Unison2x, [0, 1, 2], 1);
    assert pair[0] == first && wrapped[1] == first;
    assert first in pair && first in wrapped;
  }

  /** A list written over the beginning of an old one. */
  function Listed(cards: seq<byte>, before: seq<byte>): seq<byte>
    requires |cards| <= |before|
  {
    cards + before[|cards|..]
  }

  lemma ListedOneMore(cards: seq<byte>, before: seq<byte>, card: byte)
    requires |cards| < |before|
    ensures Listed(cards + [card], before) == Listed(cards, before)[|cards| := card]
  {
  }

  // ---- What the cards play ----

  /** The last command that the card was given; a card that was never given any is silent. */
  function LastCommand(calls: seq<Call>, card: byte): Command {
    if calls == [] then Kill
    else
      var last := calls[|calls| - 1];
      if last.ToCard? && last.card == card then last.command else LastCommand(calls[..|calls| - 1], card)
  }

  predicate PlaysNote(calls: seq<Call>, card: byte, note: byte) {
    LastCommand(calls, card).Trigger? && LastCommand(calls, card).note == note
  }

  predicate IsSilent(calls: seq<Call>, card: byte) {
    !LastCommand(calls, card).Trigger?
  }

  lemma LastOfOne(calls: seq<Call>, call: Call, card: byte)
    ensures LastCommand(calls + [call], card) ==
            if call.ToCard? && call.card == card then call.command else LastCommand(calls, card)
  {
    assert (calls + [call])[..|calls|] == calls;
  }

  /** A card that is in none of the calls keeps its last command. */
  lemma {:induction false} Unaddressed(calls: seq<Call>, added: seq<Call>, card: byte)
    requires forall i :: 0 <= i < |added| ==> !(added[i].ToCard? && added[i].card == card)
    ensures LastCommand(calls + added, card) == LastCommand(calls, card)
  {
    if added == [] {
      assert calls + added == calls;
    } else {
      var init, last := added[..|added| - 1], added[|added| - 1];
      Unaddressed(calls, init, card);
      assert calls + added == calls + init + [last];
      LastOfOne(calls + init, last, card);
    }
  }

  /** A card that is in one of the calls has it as its last command, if all that address it agree on the note. */
  lemma {:induction false} Addressed(calls: seq<Call>, added: seq<Call>, card: byte, silent: bool, note: byte)
    requires exists i :: 0 <= i < |added| && added[i].ToCard? && added[i].card == card
    requires forall i :: 0 <= i < |added| && added[i].ToCard? && added[i].card == card ==>
               if silent then !added[i].command.Trigger? else added[i].command.Trigger? && added[i].command.note == note
    ensures if silent then IsSilent(calls + added, card) else PlaysNote(calls + added, card, note)
  {
    var init, last := added[..|added| - 1], added[|added| - 1];
    assert calls + added == calls + init + [last];
    LastOfOne(calls + init, last, card);
    if !(last.ToCard? && last.card == card) {
      var i :| 0 <= i < |added| && added[i].ToCard? && added[i].card == card;
      assert init[i] == added[i];
      Addressed(calls, init, card, silent, note);
    }
  }

  /** Every card of a monophonic part plays the most recent key, and none plays when no key is held. */
  ghost predicate CardsPlayTop(calls: seq<Call>, cards: seq<byte>, keys: seq<NS.Key>) {
    forall card :: card in cards ==> if keys == [] then IsSilent(calls, card) else PlaysNote(calls, card, keys[0].note)
  }

  lemma TriggeredPlay(
      calls: seq<Call>, added: seq<Call>, cards: seq<byte>, spread: byte, note: byte, velocity: byte, legato: bool)
    requires EachTriggered(added, cards, spread, note, velocity, legato)
    ensures forall card :: card in cards ==> PlaysNote(calls + added, card, note)
  {
    forall card | card in cards ensures PlaysNote(calls + added, card, note) {
      var i :| 0 <= i < |cards| && cards[i] == card;
      assert added[i].ToCard? && added[i].card == card;
      Addressed(calls, added, card, false, note);
    }
  }

  lemma ToldAreSilent(calls: seq<Call>, added: seq<Call>, cards: seq<byte>, command: Command)
    requires EachTold(added, cards, command) && !command.Trigger?
    ensures forall card :: card in cards ==> IsSilent(calls + added, card)
  {
    forall card | card in cards ensures IsSilent(calls + added, card) {
      var i :| 0 <= i < |cards| && cards[i] == card;
      assert added[i].ToCard? && added[i].card == card;
      Addressed(calls, added, card, true, 0);
    }
  }

  lemma PressPlaysTop(
      calls: seq<Call>, added: seq<Call>, cards: seq<byte>, spread: byte, keys: seq<NS.Key>, note: byte, velocity: byte,
      legato: bool)
    requires EachTriggered(added, cards, spread, note, velocity, legato)
    ensures CardsPlayTop(calls + added, cards, NS.Press(keys, 7, NS.Key(note, velocity)))
  {
    TriggeredPlay(calls, added, cards, spread, note, velocity, legato);
    assert NS.Press(keys, 7, NS.Key(note, velocity))[0].note == note;
    hide EachTriggered;
  }

  lemma ReleasePlaysTop(
      calls: seq<Call>, added: seq<Call>, cards: seq<byte>, spread: byte, keys: seq<NS.Key>, note: byte)
    requires NS.DistinctNotes(keys) && CardsPlayTop(calls, cards, keys) && HearRelease(added, cards, spread, keys, note)
    ensures CardsPlayTop(calls + added, cards, NS.Release(keys, note))
  {
    if keys != [] && keys[0].note == note && |keys| > 1 {
      TriggeredPlay(calls, added, cards, spread, keys[1].note, Low7(keys[1].velocity), true);
      assert NS.Release(keys, note) == keys[1..];
    } else if HoldsAnother(keys, note) {
      assert calls + added == calls;
      assert keys[0].note != note;
    } else {
      ToldAreSilent(calls, added, cards, Release);
      if keys != [] {
        assert keys[0].note == note;
        assert NS.Release(keys, note) == keys[1..] == [];
      }
    }
    hide EachTriggered, EachTold, PlaysNote, IsSilent;
  }

  ghost predicate SharesNoCard(mode: PolyphonyMode, cards: seq<byte>)
    requires |cards| <= 6
  {
    forall u: byte, v: byte :: u < v ==> Disjoint(Targets(mode, cards, u), Targets(mode, cards, v))
  }

  /**
   The cards of every voice play what the allocator has it sounding, and nothing when it is not.  In a round robin a
   voice given note 127 looks released, and its cards may do either.
   */
  ghost predicate CardsPlayVoices(calls: seq<Call>, mode: PolyphonyMode, cards: seq<byte>, pool: seq<byte>)
    requires |cards| <= 6
  {
    forall v: byte, card :: v as int < |pool| && card in Targets(mode, cards, v) ==>
        PlaysVoice(calls, mode, card, pool[v])
  }

  ghost predicate PlaysVoice(calls: seq<Call>, mode: PolyphonyMode, card: byte, cell: byte) {
    && (HighBit(cell) && !(mode.Cyclic? && cell == 0xff) ==> PlaysNote(calls, card, Low7(cell)))
    && (!HighBit(cell) ==> IsSilent(calls, card))
  }

  lemma OthersUnaddressed(
      calls: seq<Call>, added: seq<Call>, mode: PolyphonyMode, cards: seq<byte>, voice: byte, u: byte, card: byte)
    requires |cards| <= 6 && SharesNoCard(mode, cards) && u != voice && card in Targets(mode, cards, u)
    requires forall i :: 0 <= i < |added| && added[i].ToCard? ==> added[i].card in Targets(mode, cards, voice)
    ensures LastCommand(calls + added, card) == LastCommand(calls, card)
  {
    hide Targets;
    assert card !in Targets(mode, cards, voice) by {
      if u < voice {
        assert Disjoint(Targets(mode, cards, u), Targets(mode, cards, voice));
      } else {
        assert Disjoint(Targets(mode, cards, voice), Targets(mode, cards, u));
      }
    }
    Unaddressed(calls, added, card);
  }

  /** What one voice's calls say: they go to its cards, to each of them, and all say the same. */
  lemma HeardByItsCards(
      added: seq<Call>, mode: PolyphonyMode, cards: seq<byte>, voice: byte, spread: byte, note: byte, velocity: byte,
      card: byte)
    requires |cards| <= 6
    requires HearVoice(added, mode, cards, voice, spread, note, velocity) ||
             HearVoiceFade(added, mode, cards, voice, note)
    ensures forall i :: 0 <= i < |added| && added[i].ToCard? ==> added[i].card in Targets(mode, cards, voice)
    ensures card in Targets(mode, cards, voice) ==>
            exists i :: 0 <= i < |added| && added[i].ToCard? && added[i].card == card
    ensures HearVoice(added, mode, cards, voice, spread, note, velocity) ==>
              forall i :: 0 <= i < |added| && added[i].ToCard? ==>
                  added[i].command.Trigger? && added[i].command.note == note
    ensures HearVoiceFade(added, mode, cards, voice, note) ==>
              forall i :: 0 <= i < |added| && added[i].ToCard? ==> added[i].command == Release
  {
    if card in Targets(mode, cards, voice) && mode.Unison2x? {
      assert added[0].card == card || added[1].card == card;
    } else if card in Targets(mode, cards, voice) {
      assert added[0].card == card;
    }
  }

  /** One voice starts or stops, and its cards with it; the cards of the others go on as they were. */
  lemma VoiceChangePlays(
      calls: seq<Call>, added: seq<Call>, mode: PolyphonyMode, cards: seq<byte>, spread: byte, pool: seq<byte>,
      voice: byte, cell: byte, note: byte, velocity: byte, on: bool)
    requires |cards| <= 6 && SharesNoCard(mode, cards) && CardsPlayVoices(calls, mode, cards, pool)
    requires voice as int < |pool| && note < 128
    requires if on then HearVoice(added, mode, cards, voice, spread, note, velocity) && cell == SetHighBit(note)
             else HearVoiceFade(added, mode, cards, voice, note) && (!HighBit(cell) || (mode.Cyclic? && cell == 0xff))
    ensures CardsPlayVoices(calls + added, mode, cards, pool[voice := cell])
  {
    hide Targets, HearVoice, HearVoiceFade, LastCommand, SharesNoCard;
    var after := pool[voice := cell];
    forall v: byte, card | v as int < |after| && card in Targets(mode, cards, v)
      ensures PlaysVoice(calls + added, mode, card, after[v])
    {
      HeardByItsCards(added, mode, cards, voice, spread, note, velocity, card);
      if v == voice {
        Addressed(calls, added, card, !on, note);
      } else {
        OthersUnaddressed(calls, added, mode, cards, voice, v, card);
        assert PlaysVoice(calls, mode, card, pool[v]);
      }
    }
  }

  /** Where no voice answers, no card is addressed. */
  lemma NoVoiceChangesNothing(
      calls: seq<Call>, added: seq<Call>, mode: PolyphonyMode, cards: seq<byte>, spread: byte, pool: seq<byte>,
      voice: byte, note: byte, velocity: byte)
    requires |cards| <= 6 && CardsPlayVoices(calls, mode, cards, pool) && voice == VA.NO_VOICE
    requires HearVoice(added, mode, cards, voice, spread, note, velocity) ||
             HearVoiceFade(added, mode, cards, voice, note)
    ensures CardsPlayVoices(calls + added, mode, cards, pool)
  {
    forall card ensures LastCommand(calls + added, card) == LastCommand(calls, card) {
      Unaddressed(calls, added, card);
    }
    hide LastCommand, Targets;
  }

  lemma PolyOnCell(s: VA.State, note: byte)
    requires VA.WellFormed(s) && note < 128
    ensures var (s', voice) := PolyOn(s, note);
            if voice == VA.NO_VOICE then s'.pool == s.pool
            else voice as int < |s.pool| && s'.pool == s.pool[voice := SetHighBit(note)]
  {
    var active := VA.ActiveHolder(s.pool, note, 0);
    if active != VA.NO_VOICE {
      assert s.pool[active := SetHighBit(note)] == s.pool;
    }
    hide VA.ActiveHolder;
  }

  lemma OffCell(s: VA.State, note: byte)
    requires VA.WellFormed(s) && note < 128
    ensures var (s', voice) := VA.Off(s, note);
            if voice == VA.NO_VOICE then s'.pool == s.pool
            else
              && voice as int < |s.pool|
              && s'.pool == s.pool[voice := if s.cyclic == 0xff then note else 0xff]
  {
    hide VA.MoveToFront, IsPermutation;
  }

  /** A note told to MIDI out commands no card. */
  lemma AfterOut(calls: seq<Call>, out: Call, card: byte)
    requires !out.ToCard?
    ensures LastCommand(calls + [out], card) == LastCommand(calls, card)
  {
    LastOfOne(calls, out, card);
  }

  lemma OutKeepsTop(calls: seq<Call>, out: Call, cards: seq<byte>, keys: seq<NS.Key>)
    requires !out.ToCard? && CardsPlayTop(calls, cards, keys)
    ensures CardsPlayTop(calls + [out], cards, keys)
  {
    forall card ensures LastCommand(calls + [out], card) == LastCommand(calls, card) {
      AfterOut(calls, out, card);
    }
    hide LastCommand;
  }

  lemma OutKeepsVoices(calls: seq<Call>, out: Call, mode: PolyphonyMode, cards: seq<byte>, pool: seq<byte>)
    requires !out.ToCard? && |cards| <= 6 && CardsPlayVoices(calls, mode, cards, pool)
    ensures CardsPlayVoices(calls + [out], mode, cards, pool)
  {
    forall card ensures LastCommand(calls + [out], card) == LastCommand(calls, card) {
      AfterOut(calls, out, card);
    }
    hide LastCommand, Targets;
  }

  /** Cards that are not the part's own do not play for it. */
  ghost predicate OthersAreSilent(calls: seq<Call>, cards: seq<byte>) {
    forall card :: card !in cards ==> IsSilent(calls, card)
  }

  lemma HomeKeepsOthersSilent(before: seq<Call>, after: seq<Call>, cards: seq<byte>)
    requires OthersAreSilent(before, cards) && StaysHome(before, after, cards)
    ensures OthersAreSilent(after, cards)
  {
    var added := after[|before|..];
    assert after == before + added;
    forall card | card !in cards ensures IsSilent(after, card) {
      Unaddressed(before, added, card);
    }
  }

  lemma AllFallSilent(calls: seq<Call>, cards: seq<byte>, command: Command)
    requires OthersAreSilent(calls, cards) && !command.Trigger?
    ensures forall card :: IsSilent(calls + ToAll(cards, command), card)
  {
    var added := ToAll(cards, command);
    ToldAreSilent(calls, added, cards, command);
    forall card ensures IsSilent(calls + added, card) {
      if card !in cards {
        Unaddressed(calls, added, card);
      }
    }
  }

  lemma NothingSaid()
    ensures forall card :: IsSilent([], card)
  {
  }

  lemma LoudKeys(keys: seq<NS.Key>)
    ensures keys != [] ==> keys[0].note in NS.NotesOf(keys)
  {
  }

  lemma LoudCell(pool: seq<byte>, v: nat)
    requires v < |pool|
    ensures HighBit(pool[v]) ==> Low7(pool[v]) in SoundingNotes(pool)
    ensures HighBit(pool[v]) && pool[v] != 0xff ==> Low7(pool[v]) in RoundRobinNotes(pool)
  {
  }

  lemma SinceMeans(before: seq<Call>, out: Call, after: seq<Call>)
    requires before + [out] <= after
    ensures after == before + [out] + Since(before, after)
  {
  }

  lemma PressInTune(
      before: seq<Call>, after: seq<Call>, cards: seq<byte>, spread: byte, keys: seq<NS.Key>, note: byte,
      velocity: byte,
      legato: bool)
    requires before + [NoteOut(note, velocity)] <= after
    requires EachTriggered(Since(before, after), cards, spread, note, velocity, legato)
    ensures CardsPlayTop(after, cards, NS.Press(keys, 7, NS.Key(note, velocity)))
  {
    hide *;
    SinceMeans(before, NoteOut(note, velocity), after);
    PressPlaysTop(before + [NoteOut(note, velocity)], Since(before, after), cards, spread, keys, note,
        velocity, legato);
  }

  lemma ReleaseInTune(
      before: seq<Call>, after: seq<Call>, cards: seq<byte>, spread: byte, keys: seq<NS.Key>, note: byte)
    requires before + [NoteOut(note, 0)] <= after && NS.DistinctNotes(keys) && CardsPlayTop(before, cards, keys)
    requires HearRelease(Since(before, after), cards, spread, keys, note)
    ensures CardsPlayTop(after, cards, NS.Release(keys, note))
  {
    hide *;
    SinceMeans(before, NoteOut(note, 0), after);
    OutKeepsTop(before, NoteOut(note, 0), cards, keys);
    ReleasePlaysTop(before + [NoteOut(note, 0)], Since(before, after), cards, spread, keys, note);
  }

  lemma VoiceInTune(
      before: seq<Call>, after: seq<Call>, mode: PolyphonyMode, cards: seq<byte>, spread: byte, pool: seq<byte>,
      voice: byte, cell: byte, note: byte, velocity: byte, on: bool)
    requires |cards| <= 6 && SharesNoCard(mode, cards) && CardsPlayVoices(before, mode, cards, pool)
    requires (voice == VA.NO_VOICE || voice as int < |pool|) && note < 128
    requires before + [NoteOut(note, velocity)] <= after
    requires if on then HearVoice(Since(before, after), mode, cards, voice, spread, note, velocity)
             else HearVoiceFade(Since(before, after), mode, cards, voice, note)
    requires if on then cell == SetHighBit(note) else !HighBit(cell) || (mode.Cyclic? && cell == 0xff)
    ensures CardsPlayVoices(after, mode, cards, if voice == VA.NO_VOICE then pool else pool[voice := cell])
  {
    hide *;
    SinceMeans(before, NoteOut(note, velocity), after);
    OutKeepsVoices(before, NoteOut(note, velocity), mode, cards, pool);
    if voice == VA.NO_VOICE {
      NoVoiceChangesNothing(before + [NoteOut(note, velocity)], Since(before, after), mode, cards, spread, pool, voice,
                            note, velocity);
    } else {
      VoiceChangePlays(before + [NoteOut(note, velocity)], Since(before, after), mode, cards, spread, pool, voice, cell,
                       note, velocity, on);
    }
  }

  // ---- The memory of a note stack, read as an allocator ----

  function NodeBytes(a: NS.Node, b: NS.Node): seq<byte> {
    [a.note, a.velocity, a.next, b.note, b.velocity, b.next]
  }

  /** Nodes 4 and 5 of the pool read as a recency list, nodes 0 and 1 as voices of which no two sound the same note. */
  ghost predicate ReadsAsVoices(pool: seq<NS.Node>, num: byte)
    requires |pool| == 8 && num <= 6
  {
    IsPermutation(NodeBytes(pool[4], pool[5])[..num]) && VA.Exclusive(NodeBytes(pool[0], pool[1])[..num])
  }

  /**
   For that, the fourth slot has to hold one of the very lowest notes: with cards a stack without such a key
   never fits.
   */
  lemma ReadsAsVoicesNeedsLowKey(stack: NS.Stack, num: byte)
    requires stack.Valid() && stack.capacity == 7 && num <= 6 && ReadsAsVoices(stack.Pool(), num)
    ensures num == 0 ||
            (stack.Pool()[4].note < num &&
             exists k :: 0 <= k < |stack.Keys()| && stack.Keys()[k].note == stack.Pool()[4].note)
  {
    if num > 0 {
      var bytes := NodeBytes(stack.Pool()[4], stack.Pool()[5])[..num];
      assert bytes[0] == stack.Pool()[4].note && bytes[0] as int < |bytes|;
      stack.SlotHoldsKey(4);
    }
  }

  /** With one card it is enough that the fourth slot holds note 0. */
  lemma OneCardReadsAsVoice(pool: seq<NS.Node>)
    requires |pool| == 8
    ensures ReadsAsVoices(pool, 1) <==> pool[4].note == 0
  {
    var lru, voices := NodeBytes(pool[4], pool[5])[..1], NodeBytes(pool[0], pool[1])[..1];
    assert lru == [pool[4].note] && lru[0] == pool[4].note && voices == [pool[0].note];
    assert IsPermutation(lru) <==> pool[4].note == 0;
  }

  class Voices {
    const mono: NS.Stack
    const poly: VA.Allocator
    const owned: array<byte>
    var num: byte
    /** The polyphony mode parameter, and the mode that the shared memory was last set up for. */
    var mode: PolyphonyMode
    var current: PolyphonyMode
    var spread: byte
    /** The notes that the part's scale leaves out. */
    var rejected: set<byte>
    var calls: seq<Call>

    ghost function Repr(): set<object> {
      {this, mono, mono.mem, mono.sorted, poly, owned}
    }

    ghost predicate HasShape()
      reads this`num, poly
    {
      && mono.HasShape() && mono.capacity == 7 && mono.mem == poly.mem
      && poly.HasShape() && poly.pool == 0 && poly.lru == 12
      && (poly.cyclic == 0xff || poly.size == 0 || poly.cyclic < poly.size)
      && owned.Length == 6 && num <= 6 && owned != mono.mem && owned != mono.sorted
    }

    /** The structure that the mode parameter selects is in order. */
    ghost predicate IsReady()
      requires HasShape()
      reads this`num, this`mode, poly, mono, mono.mem, mono.sorted
    {
      if Monophonic(mode) then mono.Valid()
      else
        && poly.Valid()
        && poly.size == AllocatorSize(mode, num)
        && (poly.cyclic == 0xff <==> !mode.Cyclic?)
        && (if mode.Cyclic? then VA.CyclicExclusive(poly.Pool()) else VA.Exclusive(poly.Pool()))
    }

    ghost predicate Valid()
      reads this`num, this`mode, poly, mono, mono.mem, mono.sorted
    {
      HasShape() && IsReady()
    }

    /** The cards this part owns. */
    ghost function Cards(): (cards: seq<byte>)
      requires HasShape()
      reads this`num, poly, owned
      ensures |cards| == num as int
    {
      owned[..num]
    }

    ghost function Sounding(): set<byte>
      requires Valid()
      reads this`num, this`mode, poly, mono, mono.mem, mono.sorted
    {
      if Monophonic(mode) then NS.NotesOf(mono.Keys())
      else if mode.Cyclic? then RoundRobinNotes(poly.Pool())
      else SoundingNotes(poly.Pool())
    }

    /** The cards that a monophonic mode addresses. */
    ghost function Addressees(): seq<byte>
      requires HasShape()
      reads this`num, this`mode, poly, owned
    {
      if mode.Mono? then Cards() else [owned[0]]
    }

    /**
     The cards play what the part has sounding, the most recent key or each voice its note, and no other card
     does.
     */
    ghost predicate InTune()
      requires Valid()
      reads this, poly, owned, mono, mono.mem, mono.sorted
    {
      && OthersAreSilent(calls, Cards())
      && if Monophonic(mode) then CardsPlayTop(calls, Addressees(), mono.Keys())
         else CardsPlayVoices(calls, mode, Cards(), poly.Pool())
    }

    /** A SOLO part has a card, and no two voices share one, as they do in UNISON_2X with three or five cards. */
    ghost predicate IsOrdinary()
      requires HasShape()
      reads this`num, this`mode, poly, owned
    {
      (mode.Solo? ==> num > 0) && (!Monophonic(mode) ==> SharesNoCard(mode, Cards()))
    }

    lemma InTuneIs()
      requires Valid()
      ensures InTune() <==>
              && OthersAreSilent(calls, Cards())
              && (Monophonic(mode) ==> CardsPlayTop(calls, Addressees(), mono.Keys()))
              && (!Monophonic(mode) ==> CardsPlayVoices(calls, mode, Cards(), poly.Pool()))
      ensures IsOrdinary() <==> (mode.Solo? ==> num > 0) && (!Monophonic(mode) ==> SharesNoCard(mode, Cards()))
      ensures Addressees() == if mode.Mono? then Cards() else [owned[0]]
      ensures Monophonic(mode) <==> mode.Mono? || mode.Solo?
    {
    }

    lemma KilledIsInTune(before: seq<Call>)
      requires Valid() && Sounding() == {} && calls == before + ToAll(Cards(), Kill)
      ensures OthersAreSilent(before, Cards()) ==> InTune()
    {
      hide *;
      Opened();
      if OthersAreSilent(before, Cards()) {
        AllFallSilent(before, Cards(), Kill);
        SilenceIsInTune();
      }
    }

    lemma SilenceIsInTune()
      requires Valid() && Sounding() == {} && forall card :: IsSilent(calls, card)
      ensures InTune()
    {
      if Monophonic(mode) {
        LoudKeys(mono.Keys());
      } else {
        forall v | 0 <= v < |poly.Pool()| ensures !HighBit(poly.Pool()[v]) || (mode.Cyclic? && poly.Pool()[v] == 0xff) {
          LoudCell(poly.Pool(), v);
        }
      }
      hide IsSilent, PlaysNote, Targets, IsReady, NS.NotesOf;
    }

    /** What `Valid` says. */
    lemma Opened()
      requires Valid()
      ensures HasShape() && owned.Length == 6 && mono.mem == poly.mem && num <= 6
      ensures poly.HasShape() && mono.HasShape() && mono.capacity == 7 && Cards() == owned[..num]
      ensures Monophonic(mode) <==> mode.Mono? || mode.Solo?
      ensures Monophonic(mode) ==>
                && mono.Valid() && NS.DistinctNotes(mono.Keys()) && mono.size as int == |mono.Keys()|
                && Sounding() == NS.NotesOf(mono.Keys())
      ensures !Monophonic(mode) ==>
                && poly.Valid() && VA.WellFormed(poly.Abs()) && poly.size == AllocatorSize(mode, num)
                && poly.Abs().pool == poly.Pool() && poly.Abs().cyclic == poly.cyclic
                && |poly.Pool()| == poly.size as int
                && (poly.cyclic == 0xff <==> !mode.Cyclic?)
                && (if mode.Cyclic? then VA.CyclicExclusive(poly.Pool()) else VA.Exclusive(poly.Pool()))
                && Sounding() == if mode.Cyclic? then RoundRobinNotes(poly.Pool()) else SoundingNotes(poly.Pool())
    {
    }

    lemma ReadyMono()
      requires HasShape() && Monophonic(mode) && mono.Valid()
      ensures Valid() && Sounding() == NS.NotesOf(mono.Keys())
    {
    }

    lemma ReadyPoly()
      requires HasShape() && !Monophonic(mode) && VA.WellFormed(poly.Abs())
      requires poly.size == AllocatorSize(mode, num) && (poly.cyclic == 0xff <==> !mode.Cyclic?)
      requires if mode.Cyclic? then VA.CyclicExclusive(poly.Abs().pool) else VA.Exclusive(poly.Abs().pool)
      ensures Valid() && poly.Pool() == poly.Abs().pool
      ensures Sounding() == if mode.Cyclic? then RoundRobinNotes(poly.Pool()) else SoundingNotes(poly.Pool())
    {
    }

    /** The shape without what the round robin's position adds to it. */
    ghost predicate IsLaidOut()
      reads this`num, poly`pool, poly`lru, poly`size
    {
      && mono.HasShape() && mono.capacity == 7 && mono.mem == poly.mem
      && poly.HasShape() && poly.pool == 0 && poly.lru == 12
      && owned.Length == 6 && num <= 6 && owned != mono.mem && owned != mono.sorted
    }

    lemma LaidOut()
      ensures HasShape() <==> IsLaidOut() && (poly.cyclic == 0xff || poly.size == 0 || poly.cyclic < poly.size)
      ensures IsLaidOut() ==>
                && poly.HasShape() && mono.HasShape() && mono.mem == poly.mem && poly.lru == 12
                && |poly.Pool()| == poly.size as int && poly.Abs().pool == poly.Pool()
                && poly.Abs().cyclic == poly.cyclic
                && (VA.WellFormed(poly.Abs()) ==> poly.cyclic == 0xff || poly.size == 0 || poly.cyclic < poly.size)
      ensures HasShape() ==> |Cards()| == num as int && Cards() == owned[..num] && num <= 6 && owned.Length == 6
      ensures Monophonic(mode) <==> mode.Mono? || mode.Solo?
    {
    }

    lemma ClearedIsReady()
      requires HasShape() && !Monophonic(mode) && poly.Valid() && VA.IsCleared(poly.Abs())
      requires poly.size == AllocatorSize(mode, num) && (poly.cyclic == 0xff <==> !mode.Cyclic?)
      ensures Valid() && Sounding() == {}
    {
      VA.ClearedIsExclusive(poly.Abs());
      ClearedIsSilent(poly.Pool());
    }

    lemma ClearedStack()
      requires HasShape() && Monophonic(mode) && mono.Valid() && mono.Keys() == []
      ensures Valid() && Sounding() == {}
    {
    }

    constructor ()
      ensures Valid() && num == 0 && mode == Poly && spread == 0 && rejected == {} && calls == [] && Sounding() == {}
      ensures fresh(Repr()) && InTune()
    {
      hide *;
      var stack := new NS.Stack(7);
      var voices := new VA.Allocator(stack.mem);
      var list := new byte[6];
      assert list != stack.mem && list != stack.sorted;
      mono, poly, owned := stack, voices, list;
      num, spread, rejected, calls := 0, 0, {}, [];
      mode, current := Poly, Poly;
      new;
      SetUp(mono, poly);
      poly.Init(0, false, 0, 12);
      SetUp(mono, poly);
      LaidOut();
      LayOut();
      ClearedIsReady();
      ReprIs();
      NothingSaid();
      SilenceIsInTune();
    }

    lemma ReprIs()
      ensures Repr() == {this, mono, mono.mem, mono.sorted, poly, owned}
    {
    }

    lemma SetUp(stack: NS.Stack, voices: VA.Allocator)
      ensures stack.Valid() ==> stack.HasShape() && stack.mem.Length == 3 * (stack.capacity + 1)
      ensures voices.Valid() ==> voices.HasShape()
    {
    }

    lemma LayOut()
      requires mono.HasShape() && mono.capacity == 7 && mono.mem == poly.mem
      requires poly.HasShape() && poly.pool == 0 && poly.lru == 12
      requires owned.Length == 6 && num <= 6 && owned != mono.mem && owned != mono.sorted
      ensures IsLaidOut()
      ensures (!Monophonic(mode) && num == 0 ==> AllocatorSize(mode, num) == 0 && Monophonic(Poly) == false)
    {
    }

    method InitializeAllocators()
      requires HasShape()
      modifies this`current, mono, mono.mem, mono.sorted, poly
      ensures Valid() && current == mode && Sounding() == {}
      ensures Monophonic(mode) ==> poly.size == old(poly.size) && poly.cyclic == old(poly.cyclic) && mono.Keys() == []
    {
      hide *;
      LaidOut();
      current := mode;
      if Monophonic(mode) {
        mono.Clear();
        ClearedStack();
      } else {
        ShapeOfMemory();
        poly.Init(AllocatorSize(mode, num), mode.Cyclic?, 0, 12);
        SetUp(mono, poly);
        LaidOutAgain();
        LaidOut();
        ClearedIsReady();
      }
    }

    lemma ShapeOfMemory()
      requires HasShape()
      ensures poly.mem.Length == 24 && mono.HasShape() && mono.capacity == 7 && mono.mem == poly.mem
      ensures owned.Length == 6 && num <= 6 && owned != mono.mem && owned != mono.sorted
    {
    }

    lemma LaidOutAgain()
      requires mono.HasShape() && mono.capacity == 7 && mono.mem == poly.mem
      requires poly.HasShape() && poly.pool == 0 && poly.lru == 12
      requires owned.Length == 6 && num <= 6 && owned != mono.mem && owned != mono.sorted
      requires poly.Valid()
      ensures IsLaidOut() && VA.WellFormed(poly.Abs())
    {
    }

    /** Clears whichever structure the mode parameter names, even one that does not fit the memory yet. */
    method AllSoundOff()
      requires HasShape()
      modifies this`calls, mono, mono.mem, mono.sorted, poly.mem
      ensures HasShape() && calls == old(calls) + ToAll(Cards(), Kill)
      ensures old(Valid()) ==> Valid() && Sounding() == {}
      ensures old(Valid()) && OthersAreSilent(old(calls), Cards()) ==> InTune()
    {
      hide *;
      LaidOut();
      if Valid() {
        Opened();
      }
      ghost var ready := Valid();
      if Monophonic(mode) {
        mono.Clear();
        ClearedStack();
      } else {
        poly.Clear();
        if ready {
          ClearedIsReady();
        }
      }
      CommandFirst(num, Kill);
      LaidOut();
      if ready {
        KilledIsInTune(old(calls));
      }
    }

    method CommandFirst(count: byte, command: Command)
      requires HasShape() && count <= 6
      modifies this`calls
      ensures calls == old(calls) + ToAll(owned[..count], command)
    {
      for i := 0 to count
        invariant calls == old(calls) + ToAll(owned[..count], command)[..i]
      {
        calls := calls + [ToCard(owned[i], command)];
        assert ToAll(owned[..count], command)[..i + 1] ==
               ToAll(owned[..count], command)[..i] + [ToCard(owned[i], command)];
      }
    }

    /**
     Writing the polyphony mode parameter sets up the memory, from any state; rewriting the same mode does
     nothing.
     */
    method SetPolyphonyMode(value: PolyphonyMode)
      requires HasShape()
      modifies this`mode, this`current, this`calls, mono, mono.mem, mono.sorted, poly
      ensures HasShape() && mode == value && Cards() == old(Cards())
      ensures value == old(mode) ==> calls == old(calls) && (old(Valid()) ==> Valid() && Sounding() == old(Sounding()))
      ensures value != old(mode) ==> Valid() && calls == old(calls) + ToAll(Cards(), Kill) && Sounding() == {}
      ensures value != old(mode) && OthersAreSilent(old(calls), Cards()) ==> InTune()
      ensures Monophonic(value) ==> poly.size == old(poly.size) && poly.cyclic == old(poly.cyclic)
    {
      if mode != value {
        mode := value;
        AllSoundOff();
        InitializeAllocators();
        KilledIsInTune(old(calls));
      }
    }

    /**
     Initializing the sequence writes POLY into the mode parameter and sets up nothing.  Whether the memory
     happens to fit depends on what it was set up for and on the number of cards.  A note stack fits if the
     allocator was last set up for as many voices, and four of the stack's nodes read as its two lists.
     */
    method InitSequence()
      requires Valid()
      modifies this`mode
      ensures HasShape() && mode == Poly && Cards() == old(Cards())
      ensures Valid() <==>
              match old(mode)
              case Poly => true
              case Unison2x => num <= 1
              case Chain => num == 0
              case Cyclic => false
              case _ => poly.size == num && poly.cyclic == 0xff && ReadsAsVoices(mono.Pool(), num)
      ensures Monophonic(old(mode)) && num > 0 && mono.Valid() && mono.Keys() == [] ==> !Valid()
    {
      if Monophonic(mode) {
        MemoryAsNodes();
        if ReadsAsVoices(mono.Pool(), num) {
          ReadsAsVoicesNeedsLowKey(mono, num);
        }
      }
      mode := Poly;
    }

    /** The two lists of the allocator, read as nodes of the stack. */
    lemma MemoryAsNodes()
      requires HasShape()
      ensures poly.size <= 6 ==>
                && poly.Pool() == NodeBytes(mono.Pool()[0], mono.Pool()[1])[..poly.size]
                && poly.Lru() == NodeBytes(mono.Pool()[4], mono.Pool()[5])[..poly.size]
    {
      NS.NodesAt(mono.mem[..], 0);
      NS.NodesAt(mono.mem[..], 1);
      NS.NodesAt(mono.mem[..], 4);
      NS.NodesAt(mono.mem[..], 5);
    }

    /** A refresh notices that the mode parameter is not the one the memory was set up for, and sets it up. */
    method TouchMode()
      requires HasShape()
      modifies this`current, this`calls, mono, mono.mem, mono.sorted, poly
      ensures HasShape() && current == mode && Cards() == old(Cards())
      ensures mode == old(current) ==>
              calls == old(calls) && (old(Valid()) ==> Valid() && Sounding() == old(Sounding()))
      ensures mode != old(current) ==> Valid() && calls == old(calls) + ToAll(Cards(), Kill) && Sounding() == {}
      ensures mode != old(current) && OthersAreSilent(old(calls), Cards()) ==> InTune()
    {
      if mode != current {
        AllSoundOff();
        InitializeAllocators();
        KilledIsInTune(old(calls));
      }
    }

    /** Silences the cards owned so far and takes over those of the mask. */
    method AssignVoices(allocation: byte)
      requires HasShape()
      modifies this`num, this`current, this`calls, owned, mono, mono.mem, mono.sorted, poly
      ensures Valid() && Sounding() == {} && mode == old(mode)
      ensures Cards() == Ownership.CardsOf(allocation)
      ensures forall i :: num as int <= i < 6 ==> owned[i] == old(owned[i])
      ensures calls == old(calls) + ToAll(old(Cards()), Kill)
      ensures OthersAreSilent(old(calls), old(Cards())) ==> InTune()
    {
      hide Ownership.CardsOf, ToAll, IsReady, Sounding, InTune, OthersAreSilent;
      AllSoundOff();
      TakeOver(allocation);
      CardsListed(Ownership.CardsOf(allocation), old(owned[..]));
      InitializeAllocators();
      if OthersAreSilent(old(calls), old(Cards())) {
        AllFallSilent(old(calls), old(Cards()), Kill);
        SilenceIsInTune();
      }
    }

    lemma CardsListed(cards: seq<byte>, before: seq<byte>)
      requires HasShape() && |cards| == num as int && |before| == 6 && owned[..] == Listed(cards, before)
      ensures Cards() == cards && forall i :: num as int <= i < 6 ==> owned[i] == before[i]
    {
      assert owned[..num] == owned[..][..num];
      forall i | num as int <= i < 6 ensures owned[i] == before[i] {
        assert owned[i] == owned[..][i];
      }
    }

    /** Lists the cards whose bits are set, testing one bit at a time. */
    method TakeOver(allocation: byte)
      requires owned.Length == 6
      modifies this`num, owned
      ensures num as int == |Ownership.CardsOf(allocation)| && num <= 6
      ensures owned[..] == Listed(Ownership.CardsOf(allocation), old(owned[..]))
    {
      var mask: byte := 1;
      ghost var before := owned[..];
      assert mask == Ownership.Bit(0) && Ownership.CardsOf(allocation, 0) == [] && before == Listed([], before);
      hide Ownership.Bit, Ownership.CardsOf, And, Listed;
      num := 0;
      for i := 0 to Ownership.NUM_VOICES
        invariant num as int <= i && mask == Ownership.Bit(i)
        invariant num as int == |Ownership.CardsOf(allocation, i)|
        invariant owned[..] == Listed(Ownership.CardsOf(allocation, i), before)
      {
        Ownership.NextCard(allocation, i);
        AppendIf(And(allocation, mask) != 0, i, Ownership.CardsOf(allocation, i), before);
        mask := 2 * mask;
      }
    }

    method AppendIf(claimed: bool, card: byte, ghost cards: seq<byte>, ghost before: seq<byte>)
      requires owned.Length == 6 == |before| && num as int == |cards| < 6 && owned[..] == Listed(cards, before)
      modifies this`num, owned
      ensures var longer := cards + if claimed then [card] else [];
              num as int == |longer| && owned[..] == Listed(longer, before)
    {
      if claimed {
        ListedOneMore(cards, before, card);
        owned[num] := card;
        num := num + 1;
      } else {
        assert cards + [] == cards;
      }
    }

    method ClearNotes()
      requires Valid()
      modifies mono, mono.mem, mono.sorted, poly.mem
      ensures Valid() && Sounding() == {}
    {
      if Monophonic(mode) {
        mono.Clear();
      } else {
        poly.ClearNotes();
      }
    }

    /** Tells MIDI out about a note. */
    method OnNote(note: byte, velocity: byte)
      requires Valid()
      modifies this`calls
      ensures Valid() && Sounding() == old(Sounding()) && Cards() == old(Cards())
      ensures calls == old(calls) + [NoteOut(note, velocity)]
    {
      calls := calls + [NoteOut(note, velocity)];
    }

    /** Lets every voice fade, without forgetting which cards there are. */
    method ReleaseAll()
      requires Valid()
      modifies this`calls, mono, mono.mem, mono.sorted, poly.mem
      ensures Valid() && Sounding() == {} && Cards() == old(Cards())
      ensures calls == old(calls) + ToAll(Cards(), Release)
      ensures old(InTune()) ==> InTune()
    {
      hide *;
      Opened();
      InTuneIs();
      ClearNotes();
      Opened();
      CommandFirst(num, Release);
      Opened();
      if old(InTune()) {
        AllFallSilent(old(calls), Cards(), Release);
        SilenceIsInTune();
      }
    }

    method InternalNoteOn(note: byte, velocity: byte)
      requires Valid() && note < 128
      modifies this`calls, mono, mono.mem, mono.sorted, poly`cyclic, poly.mem
      ensures Valid() && mode == old(mode) && Cards() == old(Cards())
      ensures note in rejected ==> calls == old(calls) && Sounding() == old(Sounding())
      ensures note !in rejected && Monophonic(mode) ==>
                && mono.Keys() == NS.Press(old(mono.Keys()), 7, NS.Key(note, velocity))
                && calls == old(calls) + [NoteOut(note, velocity)] +
                            MonoTriggers(if mode.Mono? then Cards() else [owned[0]], spread, note, velocity,
                                |mono.Keys()| > 1)
      ensures note !in rejected && !Monophonic(mode) ==>
                var (s, voice) := PolyOn(old(poly.Abs()), note);
                && poly.Abs() == s
                && calls == old(calls) + [NoteOut(note, velocity)] +
                            Triggers(mode, Targets(mode, Cards(), voice), voice, spread, note, velocity) +
                            Forwarded(mode, Cards(), voice, note, velocity)
      ensures Sounding() <= old(Sounding()) + {note}
      ensures note !in rejected ==> (StaysHome(old(calls), calls, Cards()) <==> !mode.Solo? || num > 0)
      ensures note !in rejected ==> AddsQuietly(old(calls) + [NoteOut(note, velocity)], calls)
      ensures note !in rejected && Monophonic(mode) ==>
                EachTriggered(Since(old(calls), calls), if mode.Mono? then Cards() else [owned[0]], spread, note,
                              velocity, HoldsAnother(old(mono.Keys()), note))
      ensures note !in rejected && !Monophonic(mode) ==>
                HearVoice(Since(old(calls), calls), mode, Cards(), PolyOn(old(poly.Abs()), note).1, spread, note,
                          velocity)
      ensures old(InTune()) && IsOrdinary() ==> InTune()
    {
      hide *;
      if note in rejected {
        return;
      }
      Opened();
      InTuneIs();
      calls := calls + [NoteOut(note, velocity)];
      if Monophonic(mode) {
        ghost var cards := if mode.Mono? then Cards() else [owned[0]];
        MonoTriggersAre(cards, spread, mono.Keys(), note, velocity);
        MonoNoteOn(note, velocity);
        Opened();
        SinceIs(old(calls), NoteOut(note, velocity),
                MonoTriggers(cards, spread, note, velocity, |mono.Keys()| > 1), []);
      } else {
        PolyNoteOn(note, velocity);
        Opened();
        ghost var voice := PolyOn(old(poly.Abs()), note).1;
        VoiceIsHeard(mode, Cards(), voice, spread, note, velocity);
        SinceIs(old(calls), NoteOut(note, velocity),
                Triggers(mode, Targets(mode, Cards(), voice), voice, spread, note, velocity),
                Forwarded(mode, Cards(), voice, note, velocity));
      }
      Opened();
      AddsToOne(old(calls), NoteOut(note, velocity), calls);
      StaysHomeAfter(old(calls), NoteOut(note, velocity), calls, Cards());
      if old(InTune()) && IsOrdinary() {
        InTuneIs();
        HomeKeepsOthersSilent(old(calls), calls, Cards());
        if Monophonic(mode) {
          PressInTune(old(calls), calls, Addressees(), spread, old(mono.Keys()), note, velocity,
                      HoldsAnother(old(mono.Keys()), note));
        } else {
          PolyOnCell(old(poly.Abs()), note);
          VoiceInTune(old(calls), calls, mode, Cards(), spread, old(poly.Pool()), PolyOn(old(poly.Abs()), note).1,
                      SetHighBit(note), note, velocity, true);
        }
      }
    }

    lemma FirstCardIsOwned()
      requires HasShape()
      ensures owned[0] in Cards() <==> num > 0
    {
      if num > 0 {
        assert Cards()[0] == owned[0];
      }
    }

    method MonoNoteOn(note: byte, velocity: byte)
      requires Valid() && note < 128 && Monophonic(mode)
      modifies this`calls, mono, mono.mem, mono.sorted
      ensures Valid() && Cards() == old(Cards()) && Sounding() <= old(Sounding()) + {note}
      ensures mono.Keys() == NS.Press(old(mono.Keys()), 7, NS.Key(note, velocity))
      ensures calls == old(calls) +
              MonoTriggers(if mode.Mono? then Cards() else [owned[0]], spread, note, velocity, |mono.Keys()| > 1)
      ensures StaysHome(old(calls), calls, Cards()) <==> !mode.Solo? || num > 0
      ensures AddsQuietly(old(calls), calls)
    {
      hide *;
      Opened();
      NS.NotFree(note);
      MonoTriggerStaysHome(note, velocity, |NS.Press(mono.Keys(), 7, NS.Key(note, velocity))| > 1);
      NS.PressAdds(mono.Keys(), 7, NS.Key(note, velocity));
      mono.NoteOn(note, velocity);
      ReadyMono();
      Opened();
      var legato := mono.size > 1;
      if mode.Mono? {
        TriggerFirst(num, note, velocity, legato);
      } else {
        assert owned[..1] == [owned[0]];
        TriggerFirst(1, note, velocity, legato);
      }
      MonoCommandsAreQuiet(if mode.Mono? then Cards() else [owned[0]], spread, [], note, velocity, legato);
      AddsQuietlyBoth(old(calls),
          MonoTriggers(if mode.Mono? then Cards() else [owned[0]], spread, note, velocity, legato), []);
    }

    /** Triggers the first cards in turn, each a little higher than the one before. */
    method TriggerFirst(count: byte, note: byte, velocity: byte, legato: bool)
      requires HasShape() && count <= 6
      modifies this`calls
      ensures calls == old(calls) + MonoTriggers(owned[..count], spread, note, velocity, legato)
    {
      var drift: byte := 0;
      for i := 0 to count
        invariant drift as int == i as int * spread as int % 256
        invariant calls == old(calls) + MonoTriggers(owned[..count], spread, note, velocity, legato)[..i]
      {
        calls := calls + [ToCard(owned[i], Trigger(note, drift as int, velocity, legato))];
        DriftStep(i as int, spread);
        drift := (drift + spread) % 256;
      }
    }

    method PolyNoteOn(note: byte, velocity: byte)
      requires Valid() && note < 128 && !Monophonic(mode)
      modifies this`calls, poly`cyclic, poly.mem
      ensures Valid() && Cards() == old(Cards())
      ensures var (s, voice) := PolyOn(old(poly.Abs()), note);
              && poly.Abs() == s
              && calls == old(calls) + Triggers(mode, Targets(mode, Cards(), voice), voice, spread, note, velocity) +
                          Forwarded(mode, Cards(), voice, note, velocity)
      ensures Sounding() <= old(Sounding()) + {note}
      ensures StaysHome(old(calls), calls, Cards()) && AddsQuietly(old(calls), calls)
    {
      hide *;
      Opened();
      var voice := ChooseVoice(note);
      Opened();
      TriggerVoice(voice, note, velocity);
      PolyphonicCallsStayHome(mode, Cards(), voice, spread, note, velocity);
      CommandsAreQuiet(mode, Cards(), voice, spread, note, velocity);
      ghost var triggers := Triggers(mode, Targets(mode, Cards(), voice), voice, spread, note, velocity);
      StaysHomeAdding(old(calls), triggers, Forwarded(mode, Cards(), voice, note, velocity), Cards());
      AddsQuietlyBoth(old(calls), triggers, Forwarded(mode, Cards(), voice, note, velocity));
    }

    /** A note that already sounds keeps its voice; any other is given one. */
    method ChooseVoice(note: byte) returns (voice: byte)
      requires Valid() && note < 128 && !Monophonic(mode)
      modifies poly`cyclic, poly.mem
      ensures Valid() && (poly.Abs(), voice) == PolyOn(old(poly.Abs()), note)
      ensures Sounding() <= old(Sounding()) + {note}
    {
      hide *;
      Opened();
      LaidOut();
      PolyOnCases(poly.Abs(), note);
      if mode.Cyclic? {
        PolyOnSoundsInTurn(poly.Abs(), note);
      } else {
        PolyOnSounds(poly.Abs(), note);
      }
      voice := poly.FindActive(note);
      if voice == VA.NO_VOICE {
        voice := poly.NoteOn(note);
      }
      LaidOut();
      ReadyPoly();
    }

    method TriggerVoice(voice: byte, note: byte, velocity: byte)
      requires HasShape() && poly.size == AllocatorSize(mode, num)
      modifies this`calls
      ensures calls == old(calls) + Triggers(mode, Targets(mode, Cards(), voice), voice, spread, note, velocity) +
                       Forwarded(mode, Cards(), voice, note, velocity)
    {
      VoiceCalls(mode, Cards(), voice, spread, note, velocity);
      hide Triggers, Targets, Forwarded, Following;
      ghost var triggers := Triggers(mode, Targets(mode, Cards(), voice), voice, spread, note, velocity);
      ghost var forwarded := Forwarded(mode, Cards(), voice, note, velocity);
      assert old(calls) + triggers + forwarded == old(calls) + (triggers + forwarded);
      match mode
      case Unison2x =>
        if voice < poly.size {
          var first := 2 * voice;
          calls := calls + [ToCard(owned[first], Trigger(note, 0, velocity, false))];
          calls := calls +
              [ToCard(owned[Following(first as int, num as int)], Trigger(note, spread as int, velocity, false))];
        }
      case Chain =>
        if voice < poly.size / 2 {
          calls := calls + [ToCard(owned[voice], Trigger(note, voice as int * spread as int, velocity, false))];
        } else {
          calls := calls + [ForwardNote(note, velocity)];
        }
      case _ =>
        if voice < poly.size {
          calls := calls + [ToCard(owned[voice], Trigger(note, voice as int * spread as int, velocity, false))];
        }
    }

    method InternalNoteOff(note: byte)
      requires Valid() && (note < 128 || note == 0xff)
      modifies this`calls, mono, mono.mem, mono.sorted, poly.mem
      ensures Valid() && mode == old(mode) && Cards() == old(Cards())
      ensures note == 0xff ==> calls == old(calls) && Sounding() == old(Sounding())
      ensures note != 0xff && Monophonic(mode) ==>
                && mono.Keys() == NS.Release(old(mono.Keys()), note)
                && calls == old(calls) + [NoteOut(note, 0)] +
                            MonoReleases(if mode.Mono? then Cards() else [owned[0]], spread, old(mono.Keys()), note)
      ensures note != 0xff && !Monophonic(mode) ==>
                var (s, voice) := VA.Off(old(poly.Abs()), note);
                && poly.Abs() == s
                && calls == old(calls) + [NoteOut(note, 0)] + ToAll(Targets(mode, Cards(), voice), Release) +
                            Forwarded(mode, Cards(), voice, note, 0)
      ensures Sounding() == old(Sounding()) - {note} <==> !(mode.Cyclic? && MeetsUnused(old(poly.Pool()), note))
      ensures mode.Cyclic? && MeetsUnused(old(poly.Pool()), note) ==> Sounding() == old(Sounding())
      ensures note != 0xff ==>
                (StaysHome(old(calls), calls, Cards()) <==>
                 !mode.Solo? || num > 0 || (Monophonic(mode) && GoesUnheard(old(mono.Keys()), note)))
      ensures note != 0xff ==> AddsQuietly(old(calls) + [NoteOut(note, 0)], calls)
      ensures note != 0xff && Monophonic(mode) ==>
                HearRelease(Since(old(calls), calls), if mode.Mono? then Cards() else [owned[0]], spread,
                            old(mono.Keys()), note)
      ensures note != 0xff && !Monophonic(mode) ==>
                HearVoiceFade(Since(old(calls), calls), mode, Cards(), VA.Off(old(poly.Abs()), note).1, note)
      ensures old(InTune()) && IsOrdinary() ==> InTune()
    {
      hide *;
      Opened();
      if note == 0xff {
        NoSuchNote();
        return;
      }
      InTuneIs();
      calls := calls + [NoteOut(note, 0)];
      if Monophonic(mode) {
        ghost var cards := if mode.Mono? then Cards() else [owned[0]];
        MonoReleasesAre(cards, spread, mono.Keys(), note);
        MonoNoteOff(note);
        SinceIs(old(calls), NoteOut(note, 0), MonoReleases(cards, spread, old(mono.Keys()), note), []);
      } else {
        PolyNoteOff(note);
        ghost var voice := VA.Off(old(poly.Abs()), note).1;
        VoiceIsHeard(mode, Cards(), voice, spread, note, 0);
        SinceIs(old(calls), NoteOut(note, 0), ToAll(Targets(mode, Cards(), voice), Release),
                Forwarded(mode, Cards(), voice, note, 0));
      }
      Opened();
      AddsToOne(old(calls), NoteOut(note, 0), calls);
      StaysHomeAfter(old(calls), NoteOut(note, 0), calls, Cards());
      if old(InTune()) && IsOrdinary() {
        InTuneIs();
        HomeKeepsOthersSilent(old(calls), calls, Cards());
        if Monophonic(mode) {
          ReleaseInTune(old(calls), calls, Addressees(), spread, old(mono.Keys()), note);
        } else {
          OffCell(old(poly.Abs()), note);
          ReleasedCell(note, old(poly.cyclic));
          VoiceInTune(old(calls), calls, mode, Cards(), spread, old(poly.Pool()), VA.Off(old(poly.Abs()), note).1,
                      if old(poly.cyclic) == 0xff then note else 0xff, note, 0, false);
        }
      }
    }

    lemma ReleasedCell(note: byte, cyclic: byte)
      ensures note < 128 ==> !HighBit(note)
    {
    }

    lemma NoSuchNote()
      requires Valid()
      ensures 0xff !in Sounding() && (!Monophonic(mode) ==> !MeetsUnused(poly.Pool(), 0xff))
    {
      if Monophonic(mode) {
        forall k | 0 <= k < |mono.Keys()| ensures mono.Keys()[k].note != 0xff {
          var slot := mono.KeyHasSlot(k);
        }
      }
    }

    lemma MonoReleaseStaysHome(keys: seq<NS.Key>, note: byte)
      requires HasShape() && Monophonic(mode)
      ensures var releases := MonoReleases(if mode.Mono? then Cards() else [owned[0]], spread, keys, note);
              StaysHome(calls, calls + releases, Cards()) <==> !mode.Solo? || num > 0 || GoesUnheard(keys, note)
    {
      StaysHomeAdding(calls, [], MonoReleases(if mode.Mono? then Cards() else [owned[0]], spread, keys, note), Cards());
      assert calls + [] == calls;
      assert forall more: seq<Call> :: [] + more == more;
      MonophonicCallsStayHome(Cards(), owned[0], spread, keys, note, 0, true);
      FirstCardIsOwned();
    }

    lemma MonoTriggerStaysHome(note: byte, velocity: byte, legato: bool)
      requires HasShape() && Monophonic(mode)
      ensures var triggers := MonoTriggers(if mode.Mono? then Cards() else [owned[0]], spread, note, velocity, legato);
              StaysHome(calls, calls + triggers, Cards()) <==> !mode.Solo? || num > 0
    {
      StaysHomeAdding(calls, [],
          MonoTriggers(if mode.Mono? then Cards() else [owned[0]], spread, note, velocity, legato), Cards());
      assert calls + [] == calls;
      assert forall more: seq<Call> :: [] + more == more;
      MonophonicCallsStayHome(Cards(), owned[0], spread, [], note, velocity, legato);
      FirstCardIsOwned();
    }

    method MonoNoteOff(note: byte)
      requires Valid() && note < 128 && Monophonic(mode)
      modifies this`calls, mono, mono.mem, mono.sorted
      ensures Valid() && Cards() == old(Cards()) && Sounding() == old(Sounding()) - {note}
      ensures mono.Keys() == NS.Release(old(mono.Keys()), note)
      ensures calls ==
              old(calls) + MonoReleases(if mode.Mono? then Cards() else [owned[0]], spread, old(mono.Keys()), note)
      ensures StaysHome(old(calls), calls, Cards()) <==> !mode.Solo? || num > 0 || GoesUnheard(old(mono.Keys()), note)
      ensures AddsQuietly(old(calls), calls)
    {
      hide *;
      Opened();
      MonoReleaseStaysHome(mono.Keys(), note);
      NS.ReleaseDrops(mono.Keys(), note);
      NS.ReleaseAbsent([], note);
      var targets := if mode.Solo? then 1 else num;
      assert owned[..1] == [owned[0]];
      var top := mono.MostRecentNote().note;
      mono.NoteOff(note);
      ReadyMono();
      FadeOrReturn(targets, top == note, old(mono.Keys()), note);
      MonoCommandsAreQuiet(owned[..targets], spread, old(mono.Keys()), note, 0, true);
      AddsQuietlyBoth(old(calls), MonoReleases(owned[..targets], spread, old(mono.Keys()), note), []);
    }

    /** With no key left the sound fades; when the top key was released, the key below it returns. */
    method FadeOrReturn(targets: byte, topReleased: bool, ghost keys: seq<NS.Key>, ghost note: byte)
      requires HasShape() && mono.Valid() && targets <= 6 && mono.Keys() == NS.Release(keys, note)
      requires mono.Keys() != [] ==> (topReleased <==> keys[0].note == note)
      modifies this`calls
      ensures calls == old(calls) + MonoReleases(owned[..targets], spread, keys, note)
    {
      if mono.size == 0 {
        CommandFirst(targets, Release);
      } else if topReleased {
        var next := mono.MostRecentNote();
        TriggerFirst(targets, next.note, Low7(next.velocity), true);
      }
    }

    method PolyNoteOff(note: byte)
      requires Valid() && note < 128 && !Monophonic(mode)
      modifies this`calls, poly.mem
      ensures Valid() && Cards() == old(Cards())
      ensures var (s, voice) := VA.Off(old(poly.Abs()), note);
              && poly.Abs() == s
              && calls == old(calls) + ToAll(Targets(mode, Cards(), voice), Release) +
                 Forwarded(mode, Cards(), voice, note, 0)
      ensures Sounding() == old(Sounding()) - {note} <==> !(mode.Cyclic? && MeetsUnused(old(poly.Pool()), note))
      ensures mode.Cyclic? && MeetsUnused(old(poly.Pool()), note) ==> Sounding() == old(Sounding())
      ensures StaysHome(old(calls), calls, Cards()) && AddsQuietly(old(calls), calls)
    {
      hide *;
      Opened();
      OffIsWellFormed(poly.Abs(), note);
      if mode.Cyclic? {
        OffSilencesInTurn(poly.Abs(), note);
      } else {
        OffSilences(poly.Abs(), note);
      }
      var voice := poly.NoteOff(note);
      ReadyPoly();
      ReleaseVoice(voice, note);
      PolyphonicCallsStayHome(mode, Cards(), voice, spread, note, 0);
      CommandsAreQuiet(mode, Cards(), voice, spread, note, 0);
      ghost var releases := ToAll(Targets(mode, Cards(), voice), Release);
      StaysHomeAdding(old(calls), releases, Forwarded(mode, Cards(), voice, note, 0), Cards());
      AddsQuietlyBoth(old(calls), releases, Forwarded(mode, Cards(), voice, note, 0));
    }

    method ReleaseVoice(voice: byte, note: byte)
      requires HasShape() && poly.size == AllocatorSize(mode, num)
      modifies this`calls
      ensures calls ==
              old(calls) + ToAll(Targets(mode, Cards(), voice), Release) + Forwarded(mode, Cards(), voice, note, 0)
    {
      match mode
      case Unison2x =>
        if voice < poly.size {
          var first := 2 * voice;
          calls := calls + [ToCard(owned[first], Release)];
          calls := calls + [ToCard(owned[Following(first as int, num as int)], Release)];
        }
      case Chain =>
        if voice < poly.size / 2 {
          calls := calls + [ToCard(owned[voice], Release)];
        } else {
          calls := calls + [ForwardNote(note, 0)];
        }
      case _ =>
        if voice < poly.size {
          calls := calls + [ToCard(owned[voice], Release)];
        }
    }
  }

  /** The masks of no card and of the first one. */
  const NO_CARD: byte := 0
  const FIRST_CARD: byte := 1

  lemma FirstCard()
    ensures Ownership.CardsOf(NO_CARD) == [] && Ownership.CardsOf(FIRST_CARD) == [0]
  {
    OnlyBitZero(Ownership.NUM_VOICES);
  }

  lemma {:induction false} OnlyBitZero(below: nat)
    requires below <= Ownership.NUM_VOICES
    ensures Ownership.CardsOf(0, below) == [] && Ownership.CardsOf(1, below) == if below == 0 then [] else [0]
  {
    if below > 0 {
      OnlyBitZero(below - 1);
      BitZeroOnly(below - 1);
    }
  }

  lemma BitZeroOnly(card: nat)
    ensures !Ownership.Claims(0, card) && (Ownership.Claims(1, card) <==> card == 0)
  {
    Ownership.ClaimsNothing(card);
    if card > 0 {
      Ownership.ClaimsNothing(card - 1);
    }
  }

  /** A new part that has been given the first card. */
  method FirstCardOwner() returns (part: Voices)
    ensures fresh(part) && fresh(part.mono) && fresh(part.mono.mem) && fresh(part.mono.sorted)
    ensures fresh(part.poly) && fresh(part.poly.mem) && fresh(part.owned)
    ensures part.Valid() && part.HasShape() && part.mode == Poly && part.Cards() == [0] && part.owned[0] == 0
    ensures part.poly.size == 1 && part.poly.cyclic == 0xff
    ensures part.spread == 0 && part.rejected == {} && part.calls == []
  {
    hide *;
    FirstCard();
    CallsToFirstCard();
    part := new Voices();
    part.ReprIs();
    part.Opened();
    part.AssignVoices(FIRST_CARD);
    part.Opened();
    assert part.owned[0] == part.Cards()[0];
    OneVoiceForOneCard();
  }

  lemma OneVoiceForOneCard()
    ensures AllocatorSize(Poly, 1) == 1
  {
  }

  lemma SilentStack(part: Voices)
    requires part.Valid() && Monophonic(part.mode) && part.Sounding() == {}
    ensures part.mono.Valid() && part.mono.Keys() == []
  {
    NS.CountNotes(part.mono.Keys());
  }

  lemma CallsToFirstCard()
    ensures ToAll([], Kill) == [] && ToAll([0], Kill) == [ToCard(0, Kill)]
    ensures Monophonic(Mono) && Monophonic(Solo)
    ensures forall velocity: byte {:trigger NS.Key(60, velocity)} :: |NS.Press([], 7, NS.Key(60, velocity))| == 1
    ensures !StaysHome([ToCard(0, Kill), ToCard(0, Kill)],
                       [ToCard(0, Kill), ToCard(0, Kill)] + [NoteOut(60, 100)] +
                           [ToCard(0, Trigger(60, 0, 100, false))], [])
    ensures MonoTriggers([0], 0, 60, 100, false) == [ToCard(0, Trigger(60, 0, 100, false))]
  {
    var some: seq<Call> := [ToCard(0, Kill), ToCard(0, Kill)];
    var more: seq<Call> := [NoteOut(60, 100)] + [ToCard(0, Trigger(60, 0, 100, false))];
    assert more[1].ToCard?;
    assert (some + [NoteOut(60, 100)] + [ToCard(0, Trigger(60, 0, 100, false))])[2..] == more;
  }

  /**
   A SOLO part that had the first card and lost it still triggers that card, whoever owns it now: the
   entry stays in its list.
   */
  method SoloWithoutCards() returns (part: Voices)
    ensures part.Valid() && part.mode.Solo? && part.Cards() == []
    ensures part.calls == [ToCard(0, Kill), ToCard(0, Kill), NoteOut(60, 100), ToCard(0, Trigger(60, 0, 100, false))]
    ensures !StaysHome([ToCard(0, Kill), ToCard(0, Kill)], part.calls, part.Cards())
  {
    hide *;
    part := SoloAfterLosingItsCard();
    SilentStack(part);
    part.Opened();
    CallsToFirstCard();
    assert [part.owned[0]] == [0];
    part.InternalNoteOn(60, 100);
  }

  method SoloAfterLosingItsCard() returns (part: Voices)
    ensures fresh(part) && fresh(part.mono) && fresh(part.mono.mem) && fresh(part.mono.sorted)
    ensures fresh(part.poly) && fresh(part.poly.mem) && fresh(part.owned)
    ensures part.Valid() && part.HasShape() && part.mode.Solo? && part.Cards() == [] && part.Sounding() == {}
    ensures part.owned[0] == 0 && part.spread == 0 && part.rejected == {}
    ensures part.calls == [ToCard(0, Kill), ToCard(0, Kill)]
  {
    hide *;
    FirstCard();
    CallsToFirstCard();
    part := FirstCardOwner();
    part.SetPolyphonyMode(Solo);
    part.AssignVoices(NO_CARD);
    part.Opened();
  }

  /**
   A MONO part with a card and no key: initializing its sequence leaves a recency list that names no voice.  The
   next note-on finds none, and the cell that it would then write, at index 0xff of the voices, is not one of the
   24 bytes of shared memory.
   */
  method InitSequenceStrandsMono() returns (part: Voices)
    ensures part.HasShape() && part.mode == Poly && !part.Valid() && part.Cards() == [0]
    ensures part.poly.Lru() == [0xff]
    ensures forall note: byte :: note < 127 ==> FindsNoVoice(part.poly.Abs(), note)
    ensures part.poly.pool + VA.NO_VOICE as int >= part.poly.mem.Length
  {
    hide *;
    CallsToFirstCard();
    part := FirstCardOwner();
    part.Opened();
    part.SetPolyphonyMode(Mono);
    SilentStack(part);
    part.Opened();
    StrandedMemory(part);
    part.InitSequence();
  }

  /** Neither the part's guard nor the allocator finds a voice for the note. */
  ghost predicate FindsNoVoice(s: VA.State, note: byte) {
    && |s.pool| == |s.lru| < 255
    && VA.ActiveHolder(s.pool, note, 0) == VA.NO_VOICE && VA.Choose(s, note) == VA.NO_VOICE
  }

  lemma StrandedMemory(part: Voices)
    requires part.HasShape() && part.mono.Valid() && part.mono.Keys() == []
    requires part.poly.size == 1 == part.num && part.poly.cyclic == 0xff
    ensures !ReadsAsVoices(part.mono.Pool(), 1) && part.poly.Lru() == [0xff]
    ensures part.poly.pool + VA.NO_VOICE as int >= part.poly.mem.Length
    ensures forall note: byte :: note < 127 ==> FindsNoVoice(part.poly.Abs(), note)
  {
    part.MemoryAsNodes();
    var nodes := part.mono.Pool();
    assert nodes[4] == NS.FREE_NODE && nodes[0].note == NS.FREE_SLOT;
    OneCardReadsAsVoice(nodes);
    assert part.poly.Lru() == [0xff] && part.poly.Pool() == [0xff];
    EmptyListsFindNoVoice();
  }

  lemma EmptyListsFindNoVoice()
    ensures forall note: byte :: note < 127 ==> FindsNoVoice(VA.State([0xff], [0xff], 0xff), note)
  {
    forall note: byte | note < 127 ensures FindsNoVoice(VA.State([0xff], [0xff], 0xff), note) {
      VA.ChooseFindsVoice(VA.State([0xff], [0xff], 0xff), note);
    }
  }
}
