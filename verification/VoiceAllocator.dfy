/**
 Polyphonic voice allocation: which note each voice holds (bit 7 set while it sounds) and a
 most-recently-touched ordering of the voices, both stored in memory that the allocator borrows.
 */
module VoiceAllocator {
  import opened Arithmetic
  import opened Bytes

  const NO_VOICE: byte := 0xff

  // ---- The reference: allocation on values ----

  /** `cyclic` is 0xff for the ordinary policy, otherwise the voice that a round robin used last. */
  datatype State = State(pool: seq<byte>, lru: seq<byte>, cyclic: byte)

  ghost predicate WellFormed(s: State) {
    && |s.pool| == |s.lru| <= 127
    && IsPermutation(s.lru)
    && (s.cyclic == 0xff || s.pool == [] || s.cyclic as int < |s.pool|)
  }

  predicate Sounds(s: State, voice: nat, note: byte) {
    voice < |s.pool| && Low7(s.pool[voice]) == note && HighBit(s.pool[voice])
  }

  /** The first voice that holds a note, sounding or not. */
  function Holder(pool: seq<byte>, note: byte): (voice: byte)
    requires |pool| < 255
    ensures voice == NO_VOICE || (voice as int < |pool| && Low7(pool[voice]) == note)
    ensures voice == NO_VOICE <==> forall v :: 0 <= v < |pool| ==> Low7(pool[v]) != note
    ensures forall v :: 0 <= v < |pool| && v < voice as int ==> Low7(pool[v]) != note
  {
    HolderFrom(pool, note, 0)
  }

  function HolderFrom(pool: seq<byte>, note: byte, from: nat): (voice: byte)
    requires from <= |pool| < 255
    ensures voice == NO_VOICE || (from <= voice as int < |pool| && Low7(pool[voice]) == note)
    ensures voice == NO_VOICE <==> forall v :: from <= v < |pool| ==> Low7(pool[v]) != note
    ensures forall v :: from <= v < |pool| && v < voice as int ==> Low7(pool[v]) != note
    decreases |pool| - from
  {
    if from == |pool| then NO_VOICE
    else if Low7(pool[from]) == note then from
    else HolderFrom(pool, note, from + 1)
  }

  /**
   The last entry of a recency list that names a voice which is not sounding; entries that name no voice are
   passed over.
   */
  function LastSilent(pool: seq<byte>, lru: seq<byte>): (voice: byte)
    requires |pool| < 255
    ensures voice == NO_VOICE <==> forall i :: 0 <= i < |lru| && lru[i] as int < |pool| ==> HighBit(pool[lru[i]])
    ensures voice != NO_VOICE ==> voice as int < |pool|
  {
    if lru == [] then NO_VOICE
    else
      var last := lru[|lru| - 1];
      if last as int < |pool| && !HighBit(pool[last]) then last else LastSilent(pool, lru[..|lru| - 1])
  }

  /** It is silent, and whatever is listed behind it sounds. */
  lemma {:induction false} SilentIsStalest(pool: seq<byte>, lru: seq<byte>) returns (i: nat)
    requires |pool| < 255 && LastSilent(pool, lru) != NO_VOICE
    ensures i < |lru| && lru[i] == LastSilent(pool, lru) && !HighBit(pool[LastSilent(pool, lru)])
    ensures forall j :: i < j < |lru| && lru[j] as int < |pool| ==> HighBit(pool[lru[j]])
  {
    hide HighBit;
    var last := lru[|lru| - 1];
    if last as int < |pool| && !HighBit(pool[last]) {
      i := |lru| - 1;
    } else {
      i := SilentIsStalest(pool, lru[..|lru| - 1]);
    }
  }

  lemma LastSilentOf(pool: seq<byte>, lru: seq<byte>)
    requires lru != [] && |pool| < 255
    ensures var last := lru[|lru| - 1];
            LastSilent(pool, lru) ==
            if last as int < |pool| && !HighBit(pool[last]) then last else LastSilent(pool, lru[..|lru| - 1])
  {
    hide HighBit;
  }

  lemma SilentPrefix(pool: seq<byte>, lru: seq<byte>, i: nat)
    requires i < |lru| && |pool| < 255
    ensures LastSilent(pool, lru[..i + 1]) ==
            if lru[i] as int < |pool| && !HighBit(pool[lru[i]]) then lru[i] else LastSilent(pool, lru[..i])
  {
    hide *;
    LastSilentOf(pool, lru[..i + 1]);
    assert lru[..i + 1][..i] == lru[..i] && lru[..i + 1][i] == lru[i];
  }

  /** The last entry that names a voice at all. */
  function LastListed(size: nat, lru: seq<byte>): (voice: byte)
    requires size < 255
    ensures voice == NO_VOICE <==> forall i :: 0 <= i < |lru| ==> lru[i] as int >= size
    ensures voice != NO_VOICE ==> voice as int < size
  {
    if lru == [] then NO_VOICE
    else if (lru[|lru| - 1] as int) < size then lru[|lru| - 1]
    else LastListed(size, lru[..|lru| - 1])
  }

  lemma ListedPrefix(size: nat, lru: seq<byte>, i: nat)
    requires i < |lru| && size < 255
    ensures LastListed(size, lru[..i + 1]) == if (lru[i] as int) < size then lru[i] else LastListed(size, lru[..i])
  {
    assert lru[..i + 1][..i] == lru[..i];
  }

  /**
   The ordinary policy, whatever the memory holds: the holder of the note, else the stalest silent voice, else
   the stalest voice.
   */
  function Choose(s: State, note: byte): (voice: byte)
    requires |s.pool| == |s.lru| < 255
  {
    var holder := Holder(s.pool, note);
    if holder != NO_VOICE then holder
    else
      var silent := LastSilent(s.pool, s.lru);
      if silent != NO_VOICE then silent else LastListed(|s.pool|, s.lru)
  }

  /** A voice is found exactly when one holds the note or the recency list names one. */
  lemma ChooseFindsVoice(s: State, note: byte)
    requires |s.pool| == |s.lru| < 255
    ensures Choose(s, note) == NO_VOICE <==>
            Holder(s.pool, note) == NO_VOICE && forall i :: 0 <= i < |s.lru| ==> s.lru[i] as int >= |s.pool|
    ensures Choose(s, note) != NO_VOICE ==> Choose(s, note) as int < |s.pool|
  {
  }

  function IndexOf(s: seq<byte>, x: byte, from: nat := 0): (i: nat)
    requires exists j :: from <= j < |s| && s[j] == x
    ensures from <= i < |s| && s[i] == x && forall j :: from <= j < i ==> s[j] != x
    decreases |s| - from
  {
    if s[from] == x then from else IndexOf(s, x, from + 1)
  }

  function MoveToFront(lru: seq<byte>, voice: byte): (r: seq<byte>)
    requires voice in lru
    ensures |r| == |lru| && r[0] == voice
  {
    [voice] + Without(lru, IndexOf(lru, voice))
  }

  lemma MoveToFrontKeepsPermutation(lru: seq<byte>, voice: byte)
    requires IsPermutation(lru) && voice in lru
    ensures IsPermutation(MoveToFront(lru, voice))
    ensures forall x :: x in MoveToFront(lru, voice) <==> x in lru
  {
    var k := IndexOf(lru, voice);
    RemovesFromDistinct(Without(lru, k), lru, k);
    var r := MoveToFront(lru, voice);
    assert r[1..] == Without(lru, k);
    forall i | 0 <= i < |r| ensures r[i] in lru && (i > 0 ==> r[i] == r[1..][i - 1] && r[i] != voice) {
      if i > 0 {
        assert r[i] == Without(lru, k)[i - 1];
        assert r[i] in Without(lru, k);
      }
    }
  }

  lemma EveryVoiceListed(lru: seq<byte>, voice: byte)
    requires IsPermutation(lru) && voice as int < |lru| <= 255
    ensures voice in lru
  {
    Pigeonhole(lru, 0, |lru|);
  }

  /** A sounding voice is the first one to hold its note. */
  ghost predicate Exclusive(pool: seq<byte>) {
    forall u, v :: 0 <= u < v < |pool| && HighBit(pool[v]) ==> Low7(pool[u]) != Low7(pool[v])
  }

  /** What both operations do to the recency list, and all they do to the voices. */
  ghost predicate Answers(s: State, s': State, voice: byte) {
    && WellFormed(s') && |s'.pool| == |s.pool| && (s.cyclic == 0xff <==> s'.cyclic == 0xff)
    && (voice != NO_VOICE ==> voice as int < |s.pool|)
    && (s.cyclic == 0xff ==>
          if voice == NO_VOICE then s'.lru == s.lru else voice in s.lru && s'.lru == MoveToFront(s.lru, voice))
    && (forall v :: 0 <= v < |s.pool| && v != voice as int ==> s'.pool[v] == s.pool[v])
  }

  ghost function NextVoice(s: State, note: byte): (voice: byte)
    requires WellFormed(s) && s.pool != []
    ensures voice as int < |s.pool| && voice in s.lru
  {
    var voice: byte :=
      if s.cyclic == 0xff then Choose(s, note) else if s.cyclic as int + 1 >= |s.pool| then 0 else s.cyclic + 1;
    EveryVoiceListed(s.lru, voice);
    voice
  }

  ghost function On(s: State, note: byte): (r: (State, byte))
    requires WellFormed(s) && note < 128
    ensures Answers(s, r.0, r.1) && (r.1 == NO_VOICE <==> s.pool == [])
    ensures r.1 != NO_VOICE ==> r.0.pool[r.1] == SetHighBit(note)
  {
    if s.pool == [] then (s, NO_VOICE)
    else
      var voice := NextVoice(s, note);
      MoveToFrontKeepsPermutation(s.lru, voice);
      (State(s.pool[voice := SetHighBit(note)], MoveToFront(s.lru, voice),
          if s.cyclic == 0xff then 0xff else voice), voice)
  }

  ghost function Off(s: State, note: byte): (r: (State, byte))
    requires WellFormed(s) && note < 128
    ensures Answers(s, r.0, r.1) && r.1 == Holder(s.pool, note)
    ensures r.1 != NO_VOICE ==> r.0.pool[r.1] == if s.cyclic == 0xff then note else 0xff
  {
    var voice := Holder(s.pool, note);
    if voice == NO_VOICE then (s, voice)
    else if s.cyclic == 0xff then
      EveryVoiceListed(s.lru, voice);
      MoveToFrontKeepsPermutation(s.lru, voice);
      (State(s.pool[voice := Low7(s.pool[voice])], MoveToFront(s.lru, voice), 0xff), voice)
    else (s.(pool := s.pool[voice := 0xff]), voice)
  }

  lemma OnTouches(s: State, note: byte)
    requires WellFormed(s) && s.pool != [] && note < 128
    ensures var voice := NextVoice(s, note);
            On(s, note) ==
            (State(s.pool[voice := SetHighBit(note)], MoveToFront(s.lru, voice),
                if s.cyclic == 0xff then 0xff else voice), voice)
  {
  }

  lemma OffTouches(s: State, note: byte)
    requires WellFormed(s) && note < 128
    ensures var voice := Holder(s.pool, note);
            && (voice != NO_VOICE ==> voice in s.lru)
            && Off(s, note) ==
               (if voice == NO_VOICE then s
                else if s.cyclic == 0xff then
                  State(s.pool[voice := Low7(s.pool[voice])], MoveToFront(s.lru, voice), 0xff)
                else s.(pool := s.pool[voice := 0xff]), voice)
  {
    if Holder(s.pool, note) != NO_VOICE {
      EveryVoiceListed(s.lru, Holder(s.pool, note));
    }
  }

  /** `FindActive`. */
  function ActiveHolder(pool: seq<byte>, note: byte, from: nat): (voice: byte)
    requires from <= |pool| < 255
    ensures voice == NO_VOICE || (from <= voice as int < |pool| && Low7(pool[voice]) == note && HighBit(pool[voice]))
    ensures voice == NO_VOICE <==> forall v :: from <= v < |pool| ==> !(Low7(pool[v]) == note && HighBit(pool[v]))
    decreases |pool| - from
  {
    if from == |pool| then NO_VOICE
    else if Low7(pool[from]) == note && HighBit(pool[from]) then from
    else ActiveHolder(pool, note, from + 1)
  }

  /** A recency list while its k-th entry is being closed up from the end: `source` is the next entry to move. */
  function Compacted(lru: seq<byte>, k: nat, source: int): (r: seq<byte>)
    requires k < |lru| && -1 <= source
    ensures |r| == |lru|
  {
    seq(|lru|, i requires 0 <= i < |lru| => if source + 1 < i <= k then lru[i - 1] else lru[i])
  }

  lemma Uncompacted(lru: seq<byte>, k: nat)
    requires k < |lru|
    ensures Compacted(lru, k, |lru| - 1) == lru
  {
  }

  lemma FoundOnce(lru: seq<byte>, voice: byte)
    requires voice in lru && Distinct(lru)
    ensures forall i :: 0 <= i < |lru| ==> (lru[i] == voice <==> i == IndexOf(lru, voice))
  {
  }

  lemma CompactOneMore(lru: seq<byte>, k: nat, source: int)
    requires k < |lru| && 0 <= source < |lru|
    ensures Compacted(lru, k, source)[source] == lru[source]
    ensures Compacted(lru, k, source - 1) ==
            if source == k then Compacted(lru, k, source)
            else Compacted(lru, k, source)[if source >= k then source else source + 1 := lru[source]]
  {
  }

  lemma CompactedInFront(lru: seq<byte>, voice: byte)
    requires voice in lru
    ensures Compacted(lru, IndexOf(lru, voice), -1)[0 := voice] == MoveToFront(lru, voice)
  {
    var k := IndexOf(lru, voice);
    forall i | 0 < i < |lru| ensures Compacted(lru, k, -1)[0 := voice][i] == MoveToFront(lru, voice)[i] {
      assert MoveToFront(lru, voice)[i] == Without(lru, k)[i - 1];
    }
  }

  /** A stretch of memory. */
  function Window(mem: seq<byte>, from: nat, size: nat): (s: seq<byte>)
    requires from + size <= |mem|
    ensures |s| == size && forall i {:trigger s[i]} :: 0 <= i < size ==> s[i] == mem[from + i]
  {
    seq(size, i requires 0 <= i < size => mem[from + i])
  }

  class Allocator {
    const mem: array<byte>
    var pool: nat
    var lru: nat
    var size: byte
    var cyclic: byte

    /** The two windows lie inside the borrowed memory and do not overlap. */
    ghost predicate HasShape()
      reads `pool, `lru, `size
    {
      && size <= 127
      && pool + size as int <= mem.Length && lru + size as int <= mem.Length
      && (pool + size as int <= lru || lru + size as int <= pool)
    }

    ghost function Pool(): (s: seq<byte>)
      requires HasShape()
      reads `pool, `lru, `size, mem
      ensures |s| == size as int
    {
      Window(mem[..], pool, size as int)
    }

    ghost function Lru(): (s: seq<byte>)
      requires HasShape()
      reads `pool, `lru, `size, mem
      ensures |s| == size as int
    {
      Window(mem[..], lru, size as int)
    }

    ghost function Abs(): State
      requires HasShape()
      reads this, mem
    {
      State(Pool(), Lru(), cyclic)
    }

    method SetPool(voice: byte, value: byte)
      requires HasShape() && voice < size
      modifies mem
      ensures Pool() == old(Pool())[voice := value] && Lru() == old(Lru())
    {
      mem[pool + voice as int] := value;
    }

    method SetLru(i: nat, voice: byte)
      requires HasShape() && i < size as int
      modifies mem
      ensures Lru() == old(Lru())[i := voice] && Pool() == old(Pool())
    {
      mem[lru + i] := voice;
    }

    ghost predicate Valid()
      reads this, mem
    {
      HasShape() && WellFormed(Abs())
    }

    /** A freshly zeroed allocator: it owns no voice. */
    constructor (mem: array<byte>)
      ensures this.mem == mem && Valid() && size == 0
    {
      this.mem := mem;
      pool, lru, size, cyclic := 0, 0, 0, 0;
    }

    method Init(size: byte, cyclicMode: bool, pool: nat, lru: nat)
      requires size <= 127 && pool + size as int <= mem.Length && lru + size as int <= mem.Length
      requires pool + size as int <= lru || lru + size as int <= pool
      modifies this, mem
      ensures this.size == size && this.pool == pool && this.lru == lru
      ensures Valid() && IsCleared(Abs()) && cyclic == if cyclicMode then 0 else 0xff
    {
      this.size, this.pool, this.lru := size, pool, lru;
      cyclic := if cyclicMode then 0 else 0xff;
      Clear();
    }

    method Clear()
      requires HasShape() && (cyclic == 0xff || size == 0 || cyclic < size)
      modifies mem
      ensures Valid() && IsCleared(Abs())
    {
      ClearNotes();
      for i := 0 to size
        invariant forall j :: 0 <= j < i as int ==> Lru()[j] as int == size as int - 1 - j
        invariant Pool() == seq(size as int, _ => 0)
      {
        SetLru(i as int, size - i - 1);
      }
    }

    method ClearNotes()
      requires HasShape()
      modifies mem
      ensures Pool() == seq(size as int, _ => 0) && Lru() == old(Lru())
    {
      forall i | pool <= i < pool + size as int {
        mem[i] := 0;
      }
    }

    /** The scan of `Find`. */
    method Find(note: byte) returns (voice: byte)
      requires HasShape()
      ensures voice == Holder(Pool(), note)
    {
      ghost var voices := Pool();
      hide HasShape, Pool;
      for i := 0 to size
        invariant HolderFrom(voices, note, 0) == HolderFrom(voices, note, i as int)
      {
        if Low7(PoolAt(i)) == note {
          return i;
        }
      }
      return NO_VOICE;
    }

    method FindActive(note: byte) returns (voice: byte)
      requires HasShape()
      ensures voice == ActiveHolder(Pool(), note, 0)
    {
      ghost var voices := Pool();
      hide HasShape, Pool;
      for i := 0 to size
        invariant ActiveHolder(voices, note, 0) == ActiveHolder(voices, note, i as int)
      {
        if Low7(PoolAt(i)) == note && HighBit(PoolAt(i)) {
          return i;
        }
      }
      return NO_VOICE;
    }

    /** Compacts the other entries downwards from the end, then writes the touched voice in front. */
    method Touch(voice: byte)
      requires HasShape() && voice in Lru() && IsPermutation(Lru())
      modifies mem
      ensures Lru() == MoveToFront(old(Lru()), voice) && Pool() == old(Pool())
    {
      ghost var before := Lru();
      ghost var k := IndexOf(before, voice);
      Uncompacted(before, k);
      FoundOnce(before, voice);
      hide Compacted, MoveToFront, IndexOf, IsPermutation, HasShape, Pool, Lru;
      var source, destination := size as int - 1, size as int - 1;
      while source >= 0
        invariant -1 <= source < size as int && destination == if source >= k then source else source + 1
        invariant Pool() == old(Pool()) && Lru() == Compacted(before, k, source)
        decreases source
      {
        CompactOneMore(before, k, source);
        if LruAt(source as byte) != voice {
          SetLru(destination, LruAt(source as byte));
          destination := destination - 1;
        }
        source := source - 1;
      }
      SetLru(0, voice);
      CompactedInFront(before, voice);
    }

    function PoolAt(voice: byte): (b: byte)
      requires HasShape() && voice < size
      reads `pool, `lru, `size, mem
      ensures b == Pool()[voice]
    {
      mem[pool + voice as int]
    }

    function LruAt(i: byte): (voice: byte)
      requires HasShape() && i < size
      reads `pool, `lru, `size, mem
      ensures voice == Lru()[i]
    {
      mem[lru + i as int]
    }

    /** The silent voice that was touched longest ago. */
    method PickSilent() returns (voice: byte)
      requires HasShape()
      ensures voice == LastSilent(Pool(), Lru())
    {
      voice := NO_VOICE;
      ghost var voices, recency := Pool(), Lru();
      assert recency[..0] == [] && recency[..size] == recency;
      assert LastSilent(voices, []) == NO_VOICE;
      hide LastSilent, HasShape, Pool, Lru;
      for i := 0 to size
        invariant voice == LastSilent(voices, recency[..i])
      {
        var v := LruAt(i);
        SilentPrefix(voices, recency, i as int);
        if v < size && !HighBit(PoolAt(v)) {
          voice := v;
        }
      }
    }

    /** The three scans of the ordinary policy. */
    method PickVoice(note: byte) returns (voice: byte)
      requires HasShape()
      ensures voice == Choose(Abs(), note)
    {
      hide LastSilent, LastListed, Holder, HasShape, Pool, Lru;
      voice := Find(note);
      if voice == NO_VOICE {
        voice := PickSilent();
      }
      if voice == NO_VOICE {
        voice := PickStalest();
      }
    }

    /** The voice that was touched longest ago. */
    method PickStalest() returns (voice: byte)
      requires HasShape()
      ensures voice == LastListed(size as int, Lru())
    {
      voice := NO_VOICE;
      ghost var recency := Lru();
      assert recency[..0] == [] && recency[..size] == recency;
      assert LastListed(size as int, []) == NO_VOICE;
      hide LastListed, HasShape, Pool, Lru;
      for i := 0 to size
        invariant voice == LastListed(size as int, recency[..i])
      {
        var v := LruAt(i);
        ListedPrefix(size as int, recency, i as int);
        if v < size {
          voice := v;
        }
      }
    }

    method NoteOn(note: byte) returns (voice: byte)
      requires Valid() && note < 128
      modifies this`cyclic, mem
      ensures HasShape()
      ensures (Abs(), voice) == On(old(Abs()), note)
      ensures old(cyclic) != 0xff && size > 0 ==>
                cyclic == voice && voice as int ==
                    if old(cyclic) as int + 1 == size as int then 0 else old(cyclic) as int + 1
    {
      if size == 0 {
        return NO_VOICE;
      }
      voice := TakeTurn(note);
      ghost var s := old(Abs());
      assert voice in s.lru;
      hide On, NextVoice, MoveToFront, IsPermutation, Pool, Lru;
      SetPool(voice, SetHighBit(note));
      Touch(voice);
      OnTouches(s, note);
      if s.cyclic != 0xff {
        NextInTurn(s, note);
      }
    }

    /** Picks the next voice, and counts it in a round robin. */
    method TakeTurn(note: byte) returns (voice: byte)
      requires Valid() && note < 128 && size > 0
      modifies this`cyclic
      ensures HasShape() && Pool() == old(Pool()) && Lru() == old(Lru())
      ensures voice == NextVoice(old(Abs()), note) && cyclic == if old(cyclic) == 0xff then 0xff else voice
    {
      hide Pool, Lru, Choose, IsPermutation;
      if cyclic == 0xff {
        voice := PickVoice(note);
      } else {
        cyclic := if cyclic as int + 1 >= size as int then 0 else cyclic + 1;
        voice := cyclic;
      }
    }

    method NoteOff(note: byte) returns (voice: byte)
      requires Valid() && note < 128
      modifies mem
      ensures (Abs(), voice) == Off(old(Abs()), note)
    {
      OffTouches(Abs(), note);
      hide Off, MoveToFront, IsPermutation, Pool, Lru, Holder;
      voice := Find(note);
      if voice != NO_VOICE {
        if cyclic == 0xff {
          SetPool(voice, Low7(PoolAt(voice)));
          Touch(voice);
        } else {
          SetPool(voice, 0xff);
        }
      }
    }
  }

  /** What `Clear` leaves: every voice silent, voice 0 the next to be used. */
  ghost predicate IsCleared(s: State) {
    && (forall v :: 0 <= v < |s.pool| ==> s.pool[v] == 0)
    && (forall i :: 0 <= i < |s.lru| ==> s.lru[i] as int == |s.lru| - 1 - i)
  }

  // ---- The ordinary policy ----

  /** A voice may start a note that no earlier voice holds and no later voice sounds. */
  lemma StartKeepsExclusive(pool: seq<byte>, voice: byte, note: byte)
    requires Exclusive(pool) && voice as int < |pool| && note < 128
    requires forall v :: 0 <= v < |pool| && v != voice as int && Low7(pool[v]) == note ==>
             v > voice as int && !HighBit(pool[v])
    ensures Exclusive(pool[voice := SetHighBit(note)])
  {
  }

  lemma OnKeepsExclusive(s: State, note: byte)
    requires WellFormed(s) && s.cyclic == 0xff && Exclusive(s.pool) && note < 128
    ensures Exclusive(On(s, note).0.pool)
  {
    if s.pool != [] {
      OnTouches(s, note);
      var voice := NextVoice(s, note);
      assert Holder(s.pool, note) in {NO_VOICE, voice};
      hide MoveToFront, IsPermutation, LastSilent, LastListed, On, NextVoice, Holder;
      StartKeepsExclusive(s.pool, voice, note);
    }
  }

  lemma OffKeepsExclusive(s: State, note: byte)
    requires WellFormed(s) && s.cyclic == 0xff && Exclusive(s.pool) && note < 128
    ensures Exclusive(Off(s, note).0.pool)
  {
    OffTouches(s, note);
    hide MoveToFront, IsPermutation, Off, Holder;
  }

  lemma SoundsOnOneVoice(s: State, u: nat, v: nat, note: byte)
    requires WellFormed(s) && Exclusive(s.pool) && Sounds(s, u, note) && Sounds(s, v, note)
    ensures u == v
    ensures Off(s, note).1 as int == v
  {
  }

  /** The voice that a note-on picks, said without the scans. */
  lemma OnFollowsPolicy(s: State, note: byte)
    requires WellFormed(s) && s.cyclic == 0xff && note < 128 && s.pool != []
    ensures var voice := On(s, note).1 as int;
            && voice < |s.pool|
            && var holders := set v | 0 <= v < |s.pool| && Low7(s.pool[v]) == note;
               if holders != {} then voice in holders && forall v :: v in holders ==> voice <= v
               else if exists v :: 0 <= v < |s.pool| && !HighBit(s.pool[v]) then
                 !HighBit(s.pool[voice]) &&
                 exists i :: 0 <= i < |s.lru| && s.lru[i] as int == voice &&
                             forall j :: i < j < |s.lru| ==> HighBit(s.pool[s.lru[j]])
               else s.lru[|s.lru| - 1] as int == voice
  {
    var holders := set v | 0 <= v < |s.pool| && Low7(s.pool[v]) == note;
    if Holder(s.pool, note) != NO_VOICE {
      assert Holder(s.pool, note) as int in holders;
    } else {
      assert holders == {};
      if v :| 0 <= v < |s.pool| && !HighBit(s.pool[v]) {
        EveryVoiceListed(s.lru, v);
        var i := SilentIsStalest(s.pool, s.lru);
      }
    }
  }

  datatype Op = NoteOn(note: byte) | NoteOff(note: byte)

  ghost predicate Playable(ops: seq<Op>) {
    forall i :: 0 <= i < |ops| ==> ops[i].note < 128
  }

  ghost function Step(s: State, op: Op): (r: (State, byte))
    requires WellFormed(s) && op.note < 128
    ensures Answers(s, r.0, r.1)
    ensures s.cyclic == 0xff && Exclusive(s.pool) ==> Exclusive(r.0.pool)
  {
    match op
    case NoteOn(note) =>
      if s.cyclic == 0xff && Exclusive(s.pool) then OnKeepsExclusive(s, note); On(s, note) else On(s, note)
    case NoteOff(note) =>
      if s.cyclic == 0xff && Exclusive(s.pool) then OffKeepsExclusive(s, note); Off(s, note) else Off(s, note)
  }

  /** The state after a run, and the voice each operation answered. */
  ghost function Run(s: State, ops: seq<Op>): (r: (State, seq<byte>))
    requires WellFormed(s) && Playable(ops)
    ensures WellFormed(r.0) && |r.0.pool| == |s.pool| && |r.1| == |ops| && (s.cyclic == 0xff <==> r.0.cyclic == 0xff)
    ensures s.cyclic == 0xff && Exclusive(s.pool) ==> Exclusive(r.0.pool)
    decreases |ops|
  {
    if ops == [] then (s, [])
    else
      var (s', voice) := Step(s, ops[0]);
      var (final, voices) := Run(s', ops[1..]);
      (final, [voice] + voices)
  }

  /** A run that does not release the note and never gives the voice to another one; it may start the note again. */
  ghost predicate LeavesAlone(s: State, ops: seq<Op>, note: byte, voice: nat)
    requires WellFormed(s) && Playable(ops)
    decreases |ops|
  {
    ops == [] ||
    (var (s', answer) := Step(s, ops[0]);
     (if ops[0].note == note then ops[0].NoteOn? else ops[0].NoteOn? ==> answer as int != voice) &&
     LeavesAlone(s', ops[1..], note, voice))
  }

  /** Until it is stolen or its note is released, a voice keeps sounding. */
  lemma {:induction false} UnstolenVoiceKeepsNote(s: State, ops: seq<Op>, note: byte, voice: nat)
    requires WellFormed(s) && Playable(ops) && Sounds(s, voice, note) && LeavesAlone(s, ops, note, voice)
    ensures Sounds(Run(s, ops).0, voice, note)
    decreases |ops|
  {
    hide MoveToFront, IsPermutation, On, Off, Exclusive;
    if ops != [] {
      UnstolenVoiceKeepsNote(Step(s, ops[0]).0, ops[1..], note, voice);
    }
  }

  /** The note-off of a note that was not stolen finds the voice that its note-on was given. */
  lemma NoteOffFindsItsVoice(s: State, note: byte, ops: seq<Op>)
    requires WellFormed(s) && s.cyclic == 0xff && Exclusive(s.pool) && s.pool != [] && note < 128 && Playable(ops)
    requires LeavesAlone(On(s, note).0, ops, note, On(s, note).1 as int)
    ensures Off(Run(On(s, note).0, ops).0, note).1 == On(s, note).1
  {
    var (s', voice) := On(s, note);
    OnKeepsExclusive(s, note);
    UnstolenVoiceKeepsNote(s', ops, note, voice as int);
    SoundsOnOneVoice(Run(s', ops).0, voice as int, voice as int, note);
  }

  // ---- The first notes ----

  /** The state after the first notes of a cleared allocator: they sound on the first voices, in that order. */
  ghost predicate HasGiven(s: State, notes: seq<byte>) {
    && WellFormed(s) && s.cyclic == 0xff && |notes| <= |s.pool|
    && (forall v :: 0 <= v < |notes| ==> s.pool[v] == SetHighBit(notes[v]))
    && (forall v :: |notes| <= v < |s.pool| ==> s.pool[v] == 0)
    && (forall i :: 0 <= i < |notes| ==> s.lru[i] as int == |notes| - 1 - i)
    && (forall i :: |notes| <= i < |s.lru| ==> s.lru[i] as int == |s.lru| - 1 - i + |notes|)
  }

  lemma ClearedHasGivenNone(s: State)
    requires WellFormed(s) && s.cyclic == 0xff && IsCleared(s)
    ensures HasGiven(s, [])
  {
  }

  /** The next new note is given the next voice. */
  lemma NextNoteNextVoice(s: State, notes: seq<byte>, note: byte)
    requires HasGiven(s, notes) && |notes| < |s.pool| && 0 < note < 128 && note !in notes
    requires forall i :: 0 <= i < |notes| ==> notes[i] < 128
    ensures On(s, note).1 as int == |notes| && HasGiven(On(s, note).0, notes + [note])
  {
    var n := |notes|;
    assert Holder(s.pool, note) == NO_VOICE by {
      forall v | 0 <= v < |s.pool| ensures Low7(s.pool[v]) != note {
        assert v < n ==> Low7(s.pool[v]) == notes[v];
      }
    }
    assert s.lru[|s.lru| - 1] as int == n;
    LastSilentOf(s.pool, s.lru);
    OnTouches(s, note);
    hide LastSilent, LastListed, On, Holder, IsPermutation;
    var voice := On(s, note).1;
    assert voice as int == n;
    MovedUp(s.lru, n as byte);
  }

  lemma MovedUp(lru: seq<byte>, voice: byte)
    requires lru != [] && lru[|lru| - 1] == voice && Distinct(lru)
    ensures MoveToFront(lru, voice) == [voice] + lru[..|lru| - 1]
  {
    FoundOnce(lru, voice);
  }

  /** So the first notes of a cleared allocator, all different, sound on the voices from the first one on. */
  lemma {:induction false} FirstNotesFirstVoices(s: State, notes: seq<byte>)
    requires WellFormed(s) && s.cyclic == 0xff && IsCleared(s) && |notes| <= |s.pool|
    requires Distinct(notes) && forall i :: 0 <= i < |notes| ==> 0 < notes[i] < 128
    ensures HasGiven(AfterNotes(s, notes), notes)
    ensures forall i :: 0 <= i < |notes| ==> On(AfterNotes(s, notes[..i]), notes[i]).1 as int == i
  {
    hide *;
    AfterOneMore(s, notes);
    if notes == [] {
      ClearedHasGivenNone(s);
    } else {
      var n := |notes| - 1;
      assert Distinct(notes[..n]) && notes[n] !in notes[..n] by {
        DistinctPrefix(notes);
      }
      FirstNotesFirstVoices(s, notes[..n]);
      NextNoteNextVoice(AfterNotes(s, notes[..n]), notes[..n], notes[n]);
      assert notes[..n] + [notes[n]] == notes;
      forall i | 0 <= i < |notes| ensures On(AfterNotes(s, notes[..i]), notes[i]).1 as int == i {
        if i < n {
          assert notes[..n][..i] == notes[..i];
        }
      }
    }
  }

  lemma DistinctPrefix(notes: seq<byte>)
    requires Distinct(notes) && notes != []
    ensures Distinct(notes[..|notes| - 1]) && notes[|notes| - 1] !in notes[..|notes| - 1]
  {
  }

  lemma AfterOneMore(s: State, notes: seq<byte>)
    requires WellFormed(s) && forall i :: 0 <= i < |notes| ==> notes[i] < 128
    ensures AfterNotes(s, notes) ==
            if notes == [] then s else On(AfterNotes(s, notes[..|notes| - 1]), notes[|notes| - 1]).0
    ensures |notes| < |s.pool| ==> |AfterNotes(s, notes).pool| > |notes|
  {
    hide On;
  }

  ghost function AfterNotes(s: State, notes: seq<byte>): (r: State)
    requires WellFormed(s) && forall i :: 0 <= i < |notes| ==> notes[i] < 128
    ensures WellFormed(r) && |r.pool| == |s.pool|
  {
    if notes == [] then s else On(AfterNotes(s, notes[..|notes| - 1]), notes[|notes| - 1]).0
  }

  // ---- What the recency list means ----

  /** The voices touched by a run: every answer but "no voice". */
  function Touches(voices: seq<byte>): seq<byte> {
    if voices == [] then []
    else (if voices[0] == NO_VOICE then [] else [voices[0]]) + Touches(voices[1..])
  }

  ghost predicate InRecencyOrder(lru: seq<byte>, touches: seq<byte>) {
    forall i, j :: 0 <= i < j < |lru| ==>
      LastTime(touches, lru[i]) > LastTime(touches, lru[j]) ||
          LastTime(touches, lru[i]) == LastTime(touches, lru[j]) == 0
  }

  lemma MoveToFrontKeepsRecency(lru: seq<byte>, touches: seq<byte>, voice: byte)
    requires IsPermutation(lru) && voice in lru && InRecencyOrder(lru, touches)
    ensures InRecencyOrder(MoveToFront(lru, voice), touches + [voice])
  {
    var r, later := MoveToFront(lru, voice), touches + [voice];
    var k := IndexOf(lru, voice);
    assert later[..|touches|] == touches;
    forall i, j | 0 <= i < j < |r|
      ensures LastTime(later, r[i]) > LastTime(later, r[j]) || LastTime(later, r[i]) == LastTime(later, r[j]) == 0
    {
      assert r[j] == lru[if j - 1 < k then j - 1 else j] != voice;
      if i > 0 {
        assert r[i] == lru[if i - 1 < k then i - 1 else i] != voice;
      }
    }
  }

  /** After any run the list orders the voices by when they were last touched. */
  lemma {:induction false} LruIsRecencyOrder(s: State, touches: seq<byte>, ops: seq<Op>)
    requires WellFormed(s) && s.cyclic == 0xff && Playable(ops) && InRecencyOrder(s.lru, touches)
    ensures InRecencyOrder(Run(s, ops).0.lru, touches + Touches(Run(s, ops).1))
    decreases |ops|
  {
    if ops == [] {
      assert touches + Touches([]) == touches;
    } else {
      var (s', voice) := Step(s, ops[0]);
      var voices := Run(s', ops[1..]).1;
      assert ([voice] + voices)[1..] == voices;
      if voice == NO_VOICE {
        LruIsRecencyOrder(s', touches, ops[1..]);
        assert Touches([voice] + voices) == Touches(voices);
      } else {
        MoveToFrontKeepsRecency(s.lru, touches, voice);
        LruIsRecencyOrder(s', touches + [voice], ops[1..]);
        assert touches + [voice] + Touches(voices) == touches + ([voice] + Touches(voices));
      }
    }
  }

  // ---- The round robin ----

  function NoteOns(ops: seq<Op>): nat {
    if ops == [] then 0 else (if ops[0].NoteOn? then 1 else 0) + NoteOns(ops[1..])
  }

  /** The voices that the note-ons of a run were given, in order. */
  ghost function Given(s: State, ops: seq<Op>): (voices: seq<byte>)
    requires WellFormed(s) && Playable(ops)
    ensures |voices| == NoteOns(ops)
    decreases |ops|
  {
    if ops == [] then []
    else (if ops[0].NoteOn? then [Step(s, ops[0]).1] else []) + Given(Step(s, ops[0]).0, ops[1..])
  }

  /** A note-on of a round robin is given the voice behind the last one, and the first one after the last of all. */
  lemma NextInTurn(s: State, note: byte)
    requires WellFormed(s) && s.cyclic != 0xff && s.pool != [] && note < 128
    ensures On(s, note).1 as int == if s.cyclic as int + 1 == |s.pool| then 0 else s.cyclic as int + 1
    ensures On(s, note).0.cyclic == On(s, note).1 && |On(s, note).0.pool| == |s.pool|
  {
    hide MoveToFront, IsPermutation;
  }

  lemma OffKeepsTurn(s: State, note: byte)
    requires WellFormed(s) && note < 128
    ensures Off(s, note).0.cyclic == s.cyclic && |Off(s, note).0.pool| == |s.pool|
  {
    hide MoveToFront, IsPermutation;
    OffTouches(s, note);
  }

  lemma TurnOneMore(position: nat, t: nat, size: nat)
    requires position < size
    ensures var next := if position + 1 == size then 0 else position + 1;
            && (position + 1 + t) % size == (next + t) % size && (position + 1) % size == next
  {
    RemainderCases(position + 1, size);
    if position + 1 == size {
      WholeTurn(t, size);
    }
  }

  lemma WholeTurn(t: nat, size: nat)
    requires size > 0
    ensures (size + t) % size == t % size
  {
    QuotientUnique(size + t, size, t / size + 1, t % size);
  }

  lemma FirstGiven(s: State, ops: seq<Op>)
    requires WellFormed(s) && Playable(ops) && ops != []
    ensures Given(s, ops) ==
            (if ops[0].NoteOn? then [Step(s, ops[0]).1] else []) + Given(Step(s, ops[0]).0, ops[1..])
    ensures NoteOns(ops) == (if ops[0].NoteOn? then 1 else 0) + NoteOns(ops[1..])
    ensures ops[0].note < 128 && Step(s, ops[0]) == if ops[0].NoteOn? then On(s, ops[0].note) else Off(s, ops[0].note)
  {
    hide On, Off;
  }

  lemma InTurn(s: State)
    requires WellFormed(s) && s.cyclic != 0xff && s.pool != []
    ensures s.cyclic as int < |s.pool|
  {
  }

  /** Over any run, note-offs included, a round robin gives out its voices in turn. */
  lemma {:induction false} GivenInTurn(s: State, ops: seq<Op>, t: nat)
    requires WellFormed(s) && s.cyclic != 0xff && s.pool != [] && Playable(ops) && t < NoteOns(ops)
    ensures s.cyclic as int < |s.pool|
    ensures Given(s, ops)[t] as int == (s.cyclic as int + 1 + t) % |s.pool|
    decreases |ops|
  {
    hide On, Off, Given, Step, MoveToFront, IsPermutation;
    InTurn(s);
    FirstGiven(s, ops);
    var op := ops[0];
    if op.NoteOn? {
      NextInTurn(s, op.note);
      TurnOneMore(s.cyclic as nat, t, |s.pool|);
      if t > 0 {
        GivenInTurn(On(s, op.note).0, ops[1..], t - 1);
      }
    } else {
      OffKeepsTurn(s, op.note);
      GivenInTurn(Off(s, op.note).0, ops[1..], t);
    }
  }

  /** So as many note-ons in a row as there are voices use every voice once. */
  lemma EveryVoiceInTurn(s: State, ops: seq<Op>)
    requires WellFormed(s) && s.cyclic != 0xff && s.pool != [] && Playable(ops) && NoteOns(ops) == |s.pool|
    ensures IsPermutation(Given(s, ops)) && |Given(s, ops)| == |s.pool|
  {
    hide Given, NoteOns;
    InTurn(s);
    var voices, n := Given(s, ops), |s.pool|;
    forall t | 0 <= t < n
      ensures voices[t] as int ==
              if s.cyclic as int + 1 + t < n then s.cyclic as int + 1 + t else s.cyclic as int + 1 + t - n
    {
      GivenInTurn(s, ops, t);
      RemainderCases(s.cyclic as int + 1 + t, n);
    }
  }

  /** The caller's guard: no note is started while some voice sounds it. */
  ghost predicate Guarded(s: State, ops: seq<Op>)
    requires WellFormed(s) && Playable(ops)
    decreases |ops|
  {
    ops == [] ||
    ((ops[0].NoteOn? ==> ActiveHolder(s.pool, ops[0].note, 0) == NO_VOICE) && Guarded(Step(s, ops[0]).0, ops[1..]))
  }

  /** Every voice is unused, released (which is how a sounding note 127 looks), or alone in sounding its note. */
  ghost predicate CyclicExclusive(pool: seq<byte>) {
    && (forall v :: 0 <= v < |pool| ==> pool[v] == 0 || HighBit(pool[v]))
    && (forall u, v :: 0 <= u < v < |pool| && pool[u] == pool[v] ==> pool[v] == 0 || pool[v] == 0xff)
  }

  lemma CyclicStepKeepsExclusive(s: State, op: Op)
    requires WellFormed(s) && s.cyclic != 0xff && CyclicExclusive(s.pool) && op.note < 128
    requires op.NoteOn? ==> ActiveHolder(s.pool, op.note, 0) == NO_VOICE
    ensures CyclicExclusive(Step(s, op).0.pool)
  {
    hide MoveToFront, IsPermutation, LastSilent, Holder;
    var (s', voice) := Step(s, op);
    forall u, v | 0 <= u < v < |s'.pool| && s'.pool[u] == s'.pool[v] ensures s'.pool[v] == 0 || s'.pool[v] == 0xff {
      assert u != voice as int ==> s'.pool[u] == s.pool[u];
      assert v != voice as int ==> s'.pool[v] == s.pool[v];
    }
  }

  /** Under the guard a round robin never sounds a note on two voices. */
  lemma {:induction false} GuardedRunKeepsExclusive(s: State, ops: seq<Op>)
    requires WellFormed(s) && s.cyclic != 0xff && CyclicExclusive(s.pool) && Playable(ops) && Guarded(s, ops)
    ensures CyclicExclusive(Run(s, ops).0.pool)
    decreases |ops|
  {
    if ops != [] {
      CyclicStepKeepsExclusive(s, ops[0]);
      GuardedRunKeepsExclusive(Step(s, ops[0]).0, ops[1..]);
    }
  }

  /**
   What a note-off of the note could mistake for its voice: an unused voice for note 0, a released one for
   note 127.
   */
  predicate LooksLike(cell: byte, note: byte) {
    (note == 0 && cell == 0) || (note == 127 && cell == 0xff)
  }

  lemma LooksLikeCell(cell: byte, note: byte)
    requires note < 128 && (cell == 0 || (HighBit(cell) && (cell == SetHighBit(note) ==> cell == 0xff)))
    ensures Low7(cell) == note <==> LooksLike(cell, note)
  {
  }

  lemma SoundingCell(s: State, voice: byte, note: byte)
    requires Sounds(s, voice as int, note)
    ensures s.pool[voice] == SetHighBit(note)
  {
  }

  lemma FirstLookalike(pool: seq<byte>, note: byte, voice: byte)
    requires |pool| < 255 && CyclicExclusive(pool) && voice as int < |pool|
    requires pool[voice] == SetHighBit(note) && note < 128
    ensures Holder(pool, note) == voice <==> forall v :: 0 <= v < voice as int ==> !LooksLike(pool[v], note)
  {
    forall v | 0 <= v < voice as int ensures Low7(pool[v]) == note <==> LooksLike(pool[v], note) {
      LooksLikeCell(pool[v], note);
    }
    hide LooksLike, CyclicExclusive, Holder;
    assert Low7(pool[voice]) == note;
  }

  lemma CyclicOnKeepsExclusive(s: State, note: byte)
    requires WellFormed(s) && s.cyclic != 0xff && CyclicExclusive(s.pool) && note < 128
    requires ActiveHolder(s.pool, note, 0) == NO_VOICE
    ensures CyclicExclusive(On(s, note).0.pool)
  {
    CyclicStepKeepsExclusive(s, NoteOn(note));
  }

  lemma CyclicOnSounds(s: State, note: byte)
    requires WellFormed(s) && s.cyclic != 0xff && CyclicExclusive(s.pool) && s.pool != [] && note < 128
    requires ActiveHolder(s.pool, note, 0) == NO_VOICE
    ensures CyclicExclusive(On(s, note).0.pool) && Sounds(On(s, note).0, On(s, note).1 as int, note)
  {
    CyclicStepKeepsExclusive(s, NoteOn(note));
  }

  /**
   After any guarded run that neither releases nor steals it, the note-off of a note returns the voice that
   its note-on returned, exactly when no earlier voice looks like it.  Notes 1 to 126 look like nothing else.
   */
  lemma CyclicReleaseExactly(s: State, note: byte, ops: seq<Op>)
    requires WellFormed(s) && s.cyclic != 0xff && s.pool != [] && CyclicExclusive(s.pool) && note < 128 && Playable(ops)
    requires ActiveHolder(s.pool, note, 0) == NO_VOICE && Guarded(On(s, note).0, ops)
    requires LeavesAlone(On(s, note).0, ops, note, On(s, note).1 as int)
    ensures var voice, r := On(s, note).1, Run(On(s, note).0, ops).0;
            && CyclicExclusive(r.pool)
            && (Off(r, note).1 == voice <==> forall v :: 0 <= v < voice as int ==> !LooksLike(r.pool[v], note))
  {
    var (s', voice) := On(s, note);
    CyclicOnSounds(s, note);
    hide On, Off, CyclicExclusive, LooksLike, Run, Guarded, LeavesAlone, Sounds, IsPermutation, MoveToFront;
    hide Holder, ActiveHolder;
    GuardedRunKeepsExclusive(s', ops);
    UnstolenVoiceKeepsNote(s', ops, note, voice as int);
    SoundingCell(Run(s', ops).0, voice, note);
    FirstLookalike(Run(s', ops).0.pool, note, voice);
  }

  /** So between notes 1 and 126 a round robin always releases the right voice. */
  lemma CyclicReleasesItsVoice(s: State, note: byte, ops: seq<Op>)
    requires WellFormed(s) && s.cyclic != 0xff && s.pool != []
    requires CyclicExclusive(s.pool) && 0 < note < 127 && Playable(ops)
    requires ActiveHolder(s.pool, note, 0) == NO_VOICE && Guarded(On(s, note).0, ops)
    requires LeavesAlone(On(s, note).0, ops, note, On(s, note).1 as int)
    ensures Off(Run(On(s, note).0, ops).0, note).1 == On(s, note).1
  {
    CyclicReleaseExactly(s, note, ops);
  }

  /**
   For any note at all and without the guard: the right voice is released exactly when no earlier voice holds
   the note.
   */
  lemma CyclicReleaseUnguarded(s: State, note: byte, ops: seq<Op>)
    requires WellFormed(s) && s.cyclic != 0xff && s.pool != [] && note < 128 && Playable(ops)
    requires LeavesAlone(On(s, note).0, ops, note, On(s, note).1 as int)
    ensures var voice, r := On(s, note).1, Run(On(s, note).0, ops).0;
            Off(r, note).1 == voice <==> forall v :: 0 <= v < voice as int ==> Low7(r.pool[v]) != note
  {
    var (s', voice) := On(s, note);
    UnstolenVoiceKeepsNote(s', ops, note, voice as int);
  }

  /** Note 0 on a fresh round robin is given voice 1, but its note-off releases voice 0. */
  lemma CyclicNoteZeroReleasesAnother()
    ensures var s := State([0, 0], [1, 0], 0);
            WellFormed(s) && CyclicExclusive(s.pool) && On(s, 0).1 == 1 && Off(On(s, 0).0, 0).1 == 0
  {
    var s := State([0, 0], [1, 0], 0);
    assert On(s, 0).0.pool == [0, 128];
  }

  lemma ClearedIsExclusive(s: State)
    requires WellFormed(s) && IsCleared(s)
    ensures Exclusive(s.pool) && CyclicExclusive(s.pool) && InRecencyOrder(s.lru, [])
  {
  }
}
