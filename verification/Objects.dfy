/**
 The objects that are saved and sent: the multi, and the patch and the settings of each of its parts.
 A part is one flat run of bytes, its patch followed by its settings.

 `Restored` says what a memory should hold after it has taken over an object of another one.  Dumps and
 files are two ways to get there, and both are proved against it.  Taking over a multi also refreshes
 it, which settles the voice masks of its parts, so that a multi with conflicting masks does not come
 back as it was.
 */
module Objects {
  import opened Bytes
  import Ownership

  const PATCH_SIZE := 112
  const SETTINGS_SIZE := 84
  const PART_SIZE := 196
  /** The sequence is the stretch of the settings that starts at the arpeggiator's direction. */
  const SEQUENCE_OFFSET := 8
  const SEQUENCE_SIZE := 72
  const MULTI_SIZE := 56
  const NUM_PARTS := 6
  const NAME_SIZE := 16

  /** `Settings` is the firmware's part object, the `PartData` without the patch. */
  datatype Kind = Patch | Sequence | Program | Multi | Settings

  function Number(kind: Kind): (n: byte)
    ensures n < 5
  {
    match kind
    case Patch => 0
    case Sequence => 1
    case Program => 2
    case Multi => 3
    case Settings => 4
  }

  function KindOf(n: byte): (kind: Kind)
    requires n < 5
    ensures Number(kind) == n
  {
    if n == 0 then Patch else if n == 1 then Sequence else if n == 2 then Program else if n == 3 then Multi
    else Settings
  }

  lemma KindOfNumber(kind: Kind)
    ensures KindOf(Number(kind)) == kind
  {
  }

  function SizeOf(kind: Kind): nat {
    match kind
    case Patch => PATCH_SIZE
    case Sequence => SEQUENCE_SIZE
    case Program => PART_SIZE
    case Multi => MULTI_SIZE
    case Settings => SETTINGS_SIZE
  }

  /** Where an object of a part lies. */
  function Offset(kind: Kind): (at: nat)
    ensures !kind.Multi? ==> at + SizeOf(kind) <= PART_SIZE
  {
    if kind.Settings? then PATCH_SIZE else if kind.Sequence? then PATCH_SIZE + SEQUENCE_OFFSET else 0
  }

  datatype Memory = Memory(multi: seq<byte>, parts: seq<seq<byte>>)

  ghost predicate WellFormed(m: Memory) {
    && |m.multi| == MULTI_SIZE && |m.parts| == NUM_PARTS
    && forall i :: 0 <= i < |m.parts| ==> |m.parts[i]| == PART_SIZE
  }

  /** Objects with bytes of their own.  A program is a patch and settings; it has no address. */
  predicate Addressable(kind: Kind, part: nat) {
    kind.Multi? || (!kind.Program? && part < NUM_PARTS)
  }

  function Read(m: Memory, kind: Kind, part: nat): (data: seq<byte>)
    requires WellFormed(m) && Addressable(kind, part)
    ensures |data| == SizeOf(kind)
  {
    if kind.Multi? then m.multi
    else seq(SizeOf(kind), i requires 0 <= i < SizeOf(kind) => m.parts[part][Offset(kind) + i])
  }

  function Splice(s: seq<byte>, at: nat, data: seq<byte>): (r: seq<byte>)
    requires at + |data| <= |s|
    ensures |r| == |s|
    ensures forall i {:trigger r[i]} :: 0 <= i < |s| ==> r[i] == if at <= i < at + |data| then data[i - at] else s[i]
  {
    seq(|s|, i requires 0 <= i < |s| => if at <= i < at + |data| then data[i - at] else s[i])
  }

  function Write(m: Memory, kind: Kind, part: nat, data: seq<byte>): (r: Memory)
    requires WellFormed(m) && Addressable(kind, part) && |data| == SizeOf(kind)
    ensures WellFormed(r)
  {
    if kind.Multi? then m.(multi := data)
    else m.(parts := m.parts[part := Splice(m.parts[part], Offset(kind), data)])
  }

  /** What is written is read back, and nothing else has changed. */
  lemma WriteThenRead(m: Memory, kind: Kind, part: nat, data: seq<byte>)
    requires WellFormed(m) && Addressable(kind, part) && |data| == SizeOf(kind)
    ensures var r := Write(m, kind, part, data);
            && Read(r, kind, part) == data
            && (kind.Multi? ==> r.parts == m.parts)
            && (!kind.Multi? ==> r.multi == m.multi && forall i :: 0 <= i < NUM_PARTS && i != part ==>
               r.parts[i] == m.parts[i])
            && (!kind.Multi? ==>
               forall i :: 0 <= i < PART_SIZE && !(Offset(kind) <= i < Offset(kind) + SizeOf(kind)) ==>
                  r.parts[part][i] == m.parts[part][i])
  {
  }

  /** Patch and settings together are the whole part. */
  lemma PatchAndSettingsArePart(m: Memory, part: nat, source: Memory, from: nat)
    requires WellFormed(m) && WellFormed(source) && part < NUM_PARTS && from < NUM_PARTS
    ensures Write(Write(m, Patch, part, Read(source, Patch, from)), Settings, part, Read(source, Settings, from)) ==
            m.(parts := m.parts[part := source.parts[from]])
  {
    var r := Write(Write(m, Patch, part, Read(source, Patch, from)), Settings, part, Read(source, Settings, from));
    assert r.parts[part] == source.parts[from];
    assert r.parts == m.parts[part := source.parts[from]];
  }

  // ---- The objects that a file or a dump is made of ----

  /** `alias` is the number that goes into the file or the dump: 0 for the receiver's own choice of part. */
  datatype Location = Location(kind: Kind, part: nat, alias: byte)

  function PartsFrom(i: nat): (objects: seq<Location>)
    requires i <= NUM_PARTS
    ensures forall l :: l in objects ==>
            l.kind in {Patch, Settings} && l.part < NUM_PARTS && l.alias as int == l.part + 1
    decreases NUM_PARTS - i
  {
    if i == NUM_PARTS then []
    else [Location(Patch, i, (i + 1) as byte), Location(Settings, i, (i + 1) as byte)] + PartsFrom(i + 1)
  }

  /** `ForEachObject`. */
  function ObjectsOf(kind: Kind, part: nat): (objects: seq<Location>)
    ensures part < NUM_PARTS ==> forall l :: l in objects ==> Addressable(l.kind, l.part)
  {
    match kind
    case Program => [Location(Patch, part, 0), Location(Settings, part, 0)]
    case Multi => [Location(Multi, part, 0)] + PartsFrom(0)
    case _ => [Location(kind, part, 0)]
  }

  // ---- Refreshing a multi settles its voice masks ----

  lemma FirstOfParts(i: nat)
    requires i < NUM_PARTS
    ensures PartsFrom(i) ==
            [Location(Patch, i, (i + 1) as byte), Location(Settings, i, (i + 1) as byte)] + PartsFrom(i + 1)
    ensures i + 1 == NUM_PARTS ==> PartsFrom(i + 1) == []
  {
  }

  lemma {:induction false} PartsInOrder(i: nat, j: nat)
    requires i <= j < NUM_PARTS
    ensures |PartsFrom(i)| == 2 * (NUM_PARTS - i)
    ensures PartsFrom(i)[2 * (j - i)] == Location(Patch, j, (j + 1) as byte)
    ensures PartsFrom(i)[2 * (j - i) + 1] == Location(Settings, j, (j + 1) as byte)
    decreases NUM_PARTS - i
  {
    hide PartsFrom;
    FirstOfParts(i);
    if i < j {
      PartsInOrder(i + 1, j);
      assert PartsFrom(i)[2..] == PartsFrom(i + 1);
      assert PartsFrom(i)[2 * (j - i)] == PartsFrom(i + 1)[2 * (j - i) - 2];
      assert PartsFrom(i)[2 * (j - i) + 1] == PartsFrom(i + 1)[2 * (j - i) - 1];
    } else if i + 1 < NUM_PARTS {
      PartsInOrder(i + 1, i + 1);
    }
  }

  /** A multi goes first, and then the patch and the settings of each part, under the number of the part. */
  lemma ObjectsInOrder(kind: Kind, part: nat, j: nat)
    requires part < NUM_PARTS && j < NUM_PARTS
    ensures var objects := ObjectsOf(kind, part);
            match kind
            case Program => objects == [Location(Patch, part, 0), Location(Settings, part, 0)]
            case Multi =>
              && |objects| == 1 + 2 * NUM_PARTS && objects[0].kind == Multi && objects[0].alias == 0
              && objects[1 + 2 * j] == Location(Patch, j, (j + 1) as byte)
              && objects[2 + 2 * j] == Location(Settings, j, (j + 1) as byte)
            case _ => objects == [Location(kind, part, 0)]
  {
    hide PartsFrom;
    PartsInOrder(0, j);
    assert ([Location(Multi, part, 0)] + PartsFrom(0))[1..] == PartsFrom(0);
  }

  /** The last of the four bytes of a part's mapping. */
  function MaskAt(i: nat): nat {
    4 * i + 3
  }

  function MasksOf(multi: seq<byte>): (masks: seq<byte>)
    requires |multi| == MULTI_SIZE
    ensures |masks| == NUM_PARTS
  {
    seq(NUM_PARTS, i requires 0 <= i < NUM_PARTS => multi[MaskAt(i)])
  }

  function WithMasks(multi: seq<byte>, masks: seq<byte>): (r: seq<byte>)
    requires |multi| == MULTI_SIZE && |masks| == NUM_PARTS
    ensures |r| == MULTI_SIZE && MasksOf(r) == masks
  {
    seq(MULTI_SIZE, i requires 0 <= i < MULTI_SIZE => if i < 24 && i % 4 == 3 then masks[i / 4] else multi[i])
  }

  function Touch(m: Memory): (r: Memory)
    requires WellFormed(m)
    ensures WellFormed(r)
  {
    m.(multi := WithMasks(m.multi, Ownership.SolveUpTo(MasksOf(m.multi), Ownership.NOBODY as nat, NUM_PARTS).0))
  }

  /** A memory that has taken over an object of another: a multi is refreshed, and nothing else is touched. */
  function Restored(w: Memory, source: Memory, kind: Kind, part: nat, target: nat): (r: Memory)
    requires WellFormed(w) && WellFormed(source) && part < NUM_PARTS && target < NUM_PARTS
    ensures WellFormed(r)
  {
    match kind
    case Program => w.(parts := w.parts[target := source.parts[part]])
    case Multi => Touch(source)
    case _ => Write(w, kind, target, Read(source, kind, part))
  }

  lemma SixParts(w: Memory, m: Memory)
    requires WellFormed(w) && WellFormed(m)
    ensures |w.parts| == |m.parts| == NUM_PARTS
    ensures forall i :: 0 <= i < NUM_PARTS ==> WellFormed(w.(parts := w.parts[i := m.parts[i]]))
  {
  }

  /** Refreshing leaves the multi as it was exactly when no two parts claim the same card. */
  lemma TouchKeepsConflictFree(m: Memory)
    requires WellFormed(m)
    ensures Touch(m) == m <==> Ownership.ConflictFree(MasksOf(m.multi))
  {
    hide Ownership.SolveUpTo, Ownership.ConflictFree, Ownership.Settles;
    var masks := MasksOf(m.multi);
    var solved := Ownership.SolveUpTo(masks, Ownership.NOBODY as nat, NUM_PARTS).0;
    Ownership.SolveSettles(masks, Ownership.NOBODY as nat);
    Ownership.SettlementIsFair(masks, solved);
    if solved == masks {
      assert WithMasks(m.multi, solved) == m.multi;
    } else {
      assert MasksOf(Touch(m).multi) == solved;
    }
  }

  /** Two parts that both claim the first card do not keep it both. */
  lemma ConflictingMultiChanges(m: Memory)
    requires WellFormed(m) && m.multi[MaskAt(0)] == 1 && m.multi[MaskAt(1)] == 1
    ensures Touch(m) != m && !Ownership.ConflictFree(MasksOf(m.multi))
  {
    var masks := MasksOf(m.multi);
    assert Ownership.Claims(masks[0], 0) && Ownership.Claims(masks[1], 0);
    TouchKeepsConflictFree(m);
  }

  /**
   Taking over a whole multi makes the memories equal exactly when no two parts claim the same card; the
   parts always are.
   */
  lemma MultiIsRestoredExactly(w: Memory, source: Memory, part: nat, target: nat)
    requires WellFormed(w) && WellFormed(source) && part < NUM_PARTS && target < NUM_PARTS
    ensures Restored(w, source, Multi, part, target) == source <==> Ownership.ConflictFree(MasksOf(source.multi))
    ensures Restored(w, source, Multi, part, target).parts == source.parts
  {
    TouchKeepsConflictFree(source);
  }
}
