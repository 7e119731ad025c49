/**
 Whole dumps from end to end: the sender's bytes, the MIDI parser of another instrument, its system
 exclusive receiver, and its memory.
 */
module Dumps {
  import opened Bytes
  import opened Objects
  import M = MidiParser
  import X = SysEx

  // ---- Sending ----

  function DumpOf(m: Memory, l: Location): seq<byte>
    requires WellFormed(m) && Addressable(l.kind, l.part)
  {
    X.Dump(Number(l.kind) + 1, l.alias, Read(m, l.kind, l.part))
  }

  /** The seventh and eighth byte of a dump say which object of which part it is. */
  lemma DumpNamesItsObject(m: Memory, l: Location)
    requires WellFormed(m) && Addressable(l.kind, l.part)
    ensures |DumpOf(m, l)| > 8 && DumpOf(m, l)[7] == l.alias
    ensures DumpOf(m, l)[6] ==
            match l.kind
            case Patch => 0x01
            case Sequence => 0x02
            case Program => 0x03
            case Multi => 0x04
            case Settings => 0x05
  {
    hide Read, X.Nibbles, X.Sum;
  }

  function DumpsOf(m: Memory, objects: seq<Location>): seq<byte>
    requires WellFormed(m) && forall l :: l in objects ==> Addressable(l.kind, l.part)
  {
    if objects == [] then [] else DumpOf(m, objects[0]) + DumpsOf(m, objects[1..])
  }

  lemma {:induction false} DumpsInTwo(m: Memory, a: seq<Location>, b: seq<Location>)
    requires WellFormed(m)
    requires (forall l :: l in a ==> Addressable(l.kind, l.part))
    requires (forall l :: l in b ==> Addressable(l.kind, l.part))
    ensures DumpsOf(m, a + b) == DumpsOf(m, a) + DumpsOf(m, b)
  {
    hide DumpOf, Addressable;
    if a == [] {
      assert a + b == b;
    } else {
      assert (a + b)[0] == a[0] && (a + b)[1..] == a[1..] + b;
      DumpsInTwo(m, a[1..], b);
    }
  }

  method SysExSendObject(m: Memory, l: Location) returns (sent: seq<byte>)
    requires WellFormed(m) && Addressable(l.kind, l.part)
    ensures sent == DumpOf(m, l)
  {
    sent := X.SysExSendRaw(Number(l.kind) + 1, l.alias, Read(m, l.kind, l.part));
  }

  lemma OneDump(m: Memory, l: Location)
    requires WellFormed(m) && Addressable(l.kind, l.part)
    ensures DumpsOf(m, [l]) == DumpOf(m, l)
  {
    assert [l][1..] == [];
  }

  lemma PartDumps(m: Memory, i: nat)
    requires WellFormed(m) && i < NUM_PARTS
    ensures DumpsOf(m, PartsFrom(i)) ==
            DumpOf(m, Location(Patch, i, (i + 1) as byte)) + DumpOf(m, Location(Settings, i, (i + 1) as byte)) +
                DumpsOf(m, PartsFrom(i + 1))
  {
    hide DumpOf;
    var patch, settings := Location(Patch, i, (i + 1) as byte), Location(Settings, i, (i + 1) as byte);
    assert [patch, settings] == [patch] + [settings];
    OneDump(m, patch);
    OneDump(m, settings);
    DumpsInTwo(m, [patch], [settings]);
    DumpsInTwo(m, [patch, settings], PartsFrom(i + 1));
  }

  method SendParts(m: Memory) returns (sent: seq<byte>)
    requires WellFormed(m)
    ensures sent == DumpsOf(m, PartsFrom(0))
  {
    hide PartsFrom, DumpOf, DumpsOf;
    sent := [];
    for i := 0 to NUM_PARTS
      invariant sent + DumpsOf(m, PartsFrom(i)) == DumpsOf(m, PartsFrom(0))
    {
      var patch := SysExSendObject(m, Location(Patch, i, (i + 1) as byte));
      var settings := SysExSendObject(m, Location(Settings, i, (i + 1) as byte));
      PartDumps(m, i);
      ghost var rest := DumpsOf(m, PartsFrom(i + 1));
      assert sent + (patch + settings + rest) == sent + patch + settings + rest;
      sent := sent + patch + settings;
    }
    NoMoreParts(m);
    assert sent + [] == sent;
  }

  lemma NoMoreParts(m: Memory)
    requires WellFormed(m)
    ensures DumpsOf(m, PartsFrom(NUM_PARTS)) == []
  {
  }

  method SysExSend(m: Memory, kind: Kind, part: nat) returns (sent: seq<byte>)
    requires WellFormed(m) && part < NUM_PARTS
    ensures sent == DumpsOf(m, ObjectsOf(kind, part))
  {
    hide PartsFrom, DumpOf, DumpsOf;
    if kind.Program? {
      var patch := SysExSendObject(m, Location(Patch, part, 0));
      var settings := SysExSendObject(m, Location(Settings, part, 0));
      OneDump(m, Location(Patch, part, 0));
      OneDump(m, Location(Settings, part, 0));
      DumpsInTwo(m, [Location(Patch, part, 0)], [Location(Settings, part, 0)]);
      assert ObjectsOf(kind, part) == [Location(Patch, part, 0)] + [Location(Settings, part, 0)];
      sent := patch + settings;
    } else if kind.Multi? {
      var multi := SysExSendObject(m, Location(Multi, part, 0));
      var parts := SendParts(m);
      OneDump(m, Location(Multi, part, 0));
      DumpsInTwo(m, [Location(Multi, part, 0)], PartsFrom(0));
      sent := multi + parts;
    } else {
      sent := SysExSendObject(m, Location(kind, part, 0));
      OneDump(m, Location(kind, part, 0));
    }
  }

  // ---- Delivering ----

  /** What the dispatcher hands on to the receiver. */
  function Handed(call: M.Call): (bytes: seq<byte>)
    ensures M.IsRealtime(call) ==> bytes == []
  {
    match call
    case SysExStart => [0xf0]
    case SysExByte(b) => [b]
    case SysExEnd => [0xf7]
    case _ => []
  }

  function Delivered(calls: seq<M.Call>): seq<byte> {
    if calls == [] then [] else Handed(calls[0]) + Delivered(calls[1..])
  }

  lemma {:induction false} DeliveredInTwo(a: seq<M.Call>, b: seq<M.Call>)
    ensures Delivered(a + b) == Delivered(a) + Delivered(b)
  {
    if a == [] {
      assert a + b == b;
    } else {
      assert (a + b)[0] == a[0] && (a + b)[1..] == a[1..] + b;
      hide Handed;
      DeliveredInTwo(a[1..], b);
      var first := Handed(a[0]);
      assert first + (Delivered(a[1..]) + Delivered(b)) == first + Delivered(a[1..]) + Delivered(b);
    }
  }

  /** Real-time calls are not for the receiver. */
  lemma {:induction false} RealtimeIsNotDelivered(calls: seq<M.Call>)
    ensures Delivered(M.Select(calls, false)) == Delivered(calls)
  {
    if calls != [] {
      hide Handed, M.IsRealtime;
      RealtimeIsNotDelivered(calls[1..]);
      if M.IsRealtime(calls[0]) {
        assert M.Select(calls, false) == M.Select(calls[1..], false);
      } else {
        assert M.Select(calls, false) == [calls[0]] + M.Select(calls[1..], false);
      }
    }
  }

  lemma {:induction false} BodyIsDelivered(body: seq<byte>)
    ensures Delivered(M.SysExBytes(body)) == body
  {
    if body != [] {
      BodyIsDelivered(body[1..]);
      assert M.SysExBytes(body)[1..] == M.SysExBytes(body[1..]);
    }
  }

  /** A framed message reaches the receiver byte for byte, from any state of the parser. */
  lemma FramedIsDelivered(s: M.State, message: seq<byte>, channels: set<byte>)
    requires M.WellFormed(s) && X.Framed(message)
    ensures var (s', calls) := M.ReceiveAll(s, message, channels); s' == M.State(0, []) && Delivered(calls) == message
  {
    var body := message[1..|message| - 1];
    assert message == [0xf0] + body + [0xf7];
    M.SysExIsPassedOn(s, body, channels);
    BodyIsDelivered(body);
    DeliveredInTwo([M.SysExStart], M.SysExBytes(body));
    DeliveredInTwo([M.SysExStart] + M.SysExBytes(body), [M.SysExEnd]);
  }

  lemma KindIsKnown(kind: Kind, alias: byte)
    ensures X.Known(Number(kind) + 1) && X.PayloadSize(Number(kind) + 1, alias) == SizeOf(kind)
  {
    KindOfNumber(kind);
  }

  lemma DumpIsFramed(m: Memory, l: Location)
    requires WellFormed(m) && Addressable(l.kind, l.part) && l.alias < 0x80
    ensures X.Framed(DumpOf(m, l)) && X.Known(Number(l.kind) + 1)
    ensures X.PayloadSize(Number(l.kind) + 1, l.alias) == |Read(m, l.kind, l.part)|
  {
    hide X.Dump, X.IsDump, X.Framed, X.Joined, X.Sum, Read;
    KindIsKnown(l.kind, l.alias);
    X.DumpIsDump(Number(l.kind) + 1, l.alias, Read(m, l.kind, l.part));
  }

  lemma {:induction false} DumpsAreDelivered(s: M.State, m: Memory, objects: seq<Location>, channels: set<byte>)
    requires M.WellFormed(s) && WellFormed(m)
    requires forall l :: l in objects ==> Addressable(l.kind, l.part) && l.alias < 0x80
    ensures Delivered(M.ReceiveAll(s, DumpsOf(m, objects), channels).1) == DumpsOf(m, objects)
    decreases |objects|
  {
    if objects != [] {
      var head, tail := DumpOf(m, objects[0]), DumpsOf(m, objects[1..]);
      DumpIsFramed(m, objects[0]);
      FramedIsDelivered(s, head, channels);
      M.ReceiveInTwo(s, head, tail, channels);
      DumpsAreDelivered(M.State(0, []), m, objects[1..], channels);
      DeliveredInTwo(M.ReceiveAll(s, head, channels).1, M.ReceiveAll(M.State(0, []), tail, channels).1);
    }
  }

  // ---- Receiving and storing ----

  /** The accepted message brings the object. */
  ghost predicate Carries(a: X.Accepted, m: Memory, l: Location)
    requires WellFormed(m) && Addressable(l.kind, l.part)
  {
    && a.command == Number(l.kind) + 1 && a.argument == l.alias && |a.buffer| == X.BUFFER_SIZE
    && a.buffer[..SizeOf(l.kind)] == Read(m, l.kind, l.part)
  }

  ghost predicate CarryAll(accepted: seq<X.Accepted>, m: Memory, objects: seq<Location>)
    requires WellFormed(m) && forall l :: l in objects ==> Addressable(l.kind, l.part)
  {
    |accepted| == |objects| && forall i :: 0 <= i < |objects| ==> Carries(accepted[i], m, objects[i])
  }

  lemma DumpIsReceived(rx: X.Rx, m: Memory, l: Location)
    requires X.IsRx(rx) && WellFormed(m) && Addressable(l.kind, l.part) && l.alias < 0x80
    ensures var (r, accepted) := X.After(rx, DumpOf(m, l), true);
            r.phase == X.Ok && |accepted| == 1 && Carries(accepted[0], m, l)
  {
    DumpIsFramed(m, l);
    X.DumpIsAccepted(rx, Number(l.kind) + 1, l.alias, Read(m, l.kind, l.part));
  }

  lemma {:induction false} DumpsAreReceived(rx: X.Rx, m: Memory, objects: seq<Location>)
    requires X.IsRx(rx) && WellFormed(m)
    requires forall l :: l in objects ==> Addressable(l.kind, l.part) && l.alias < 0x80
    ensures var (r, accepted) := X.After(rx, DumpsOf(m, objects), true);
            CarryAll(accepted, m, objects) && (objects != [] ==> r.phase == X.Ok)
    decreases |objects|
  {
    if objects != [] {
      var head, tail := DumpOf(m, objects[0]), DumpsOf(m, objects[1..]);
      DumpIsReceived(rx, m, objects[0]);
      X.AfterInTwo(rx, head, tail, true);
      var next := X.After(rx, head, true).0;
      DumpsAreReceived(next, m, objects[1..]);
      if objects[1..] == [] {
        assert tail == [];
      }
    }
  }

  /** `Unmodelled`: a write through a null or foreign pointer, or a message that is answered rather than stored. */
  datatype Outcome = Stored(memory: Memory) | Unmodelled

  /** `SysExAcceptCommand`: argument 0 means the part selected on the receiving instrument. */
  function Store(m: Memory, a: X.Accepted, active: nat): (r: Outcome)
    requires WellFormed(m) && |a.buffer| == X.BUFFER_SIZE
    ensures r.Stored? ==> WellFormed(r.memory)
  {
    if !(1 <= a.command <= 5) then Unmodelled
    else
      var kind := KindOf(a.command - 1);
      var part := if a.argument == 0 then active else a.argument as nat - 1;
      if !Addressable(kind, part) then Unmodelled
      else
        var written := Write(m, kind, part, a.buffer[..SizeOf(kind)]);
        Stored(if kind.Multi? then Touch(written) else written)
  }

  function StoreAll(m: Memory, accepted: seq<X.Accepted>, active: nat): (r: Outcome)
    requires WellFormed(m) && forall a :: a in accepted ==> |a.buffer| == X.BUFFER_SIZE
    ensures r.Stored? ==> WellFormed(r.memory)
    decreases |accepted|
  {
    if accepted == [] then Stored(m)
    else
      var first := Store(m, accepted[0], active);
      if first.Unmodelled? then Unmodelled else StoreAll(first.memory, accepted[1..], active)
  }

  lemma StoreOne(m: Memory, a: X.Accepted, active: nat)
    requires WellFormed(m) && |a.buffer| == X.BUFFER_SIZE
    ensures StoreAll(m, [a], active) == Store(m, a, active)
  {
    assert [a][1..] == [];
  }

  /** Where an object of a dump lands. */
  function Target(l: Location, active: nat): nat {
    if l.alias == 0 then active else l.alias as nat - 1
  }

  lemma CarriedIsStored(w: Memory, a: X.Accepted, m: Memory, l: Location, active: nat)
    requires WellFormed(w) && WellFormed(m) && Addressable(l.kind, l.part) && Addressable(l.kind, Target(l, active))
    requires Carries(a, m, l)
    ensures var written := Write(w, l.kind, Target(l, active), Read(m, l.kind, l.part));
            Store(w, a, active) == Stored(if l.kind.Multi? then Touch(written) else written)
  {
    KindOfNumber(l.kind);
  }

  /** A patch and settings replace one part. */
  lemma PartIsStored(w: Memory, accepted: seq<X.Accepted>, m: Memory, i: nat, active: nat)
    requires WellFormed(w) && WellFormed(m) && i < NUM_PARTS && |accepted| >= 2
    requires forall a :: a in accepted ==> |a.buffer| == X.BUFFER_SIZE
    requires Carries(accepted[0], m, Location(Patch, i, (i + 1) as byte))
    requires Carries(accepted[1], m, Location(Settings, i, (i + 1) as byte))
    ensures StoreAll(w, accepted, active) == StoreAll(w.(parts := w.parts[i := m.parts[i]]), accepted[2..], active)
  {
    hide Store, Write, Read, Carries, Touch;
    CarriedIsStored(w, accepted[0], m, Location(Patch, i, (i + 1) as byte), active);
    var w1 := Write(w, Patch, i, Read(m, Patch, i));
    CarriedIsStored(w1, accepted[1], m, Location(Settings, i, (i + 1) as byte), active);
    PatchAndSettingsArePart(w, i, m, i);
    assert accepted[1..][0] == accepted[1] && accepted[1..][1..] == accepted[2..];
  }

  lemma LaterParts(accepted: seq<X.Accepted>, m: Memory, i: nat)
    requires WellFormed(m) && i < NUM_PARTS && CarryAll(accepted, m, PartsFrom(i))
    ensures |accepted| >= 2 && CarryAll(accepted[2..], m, PartsFrom(i + 1))
    ensures Carries(accepted[0], m, Location(Patch, i, (i + 1) as byte))
    ensures Carries(accepted[1], m, Location(Settings, i, (i + 1) as byte))
  {
    hide Carries;
    var rest := accepted[2..];
    assert Carries(accepted[0], m, PartsFrom(i)[0]) && Carries(accepted[1], m, PartsFrom(i)[1]);
    forall k | 0 <= k < |rest| ensures Carries(rest[k], m, PartsFrom(i + 1)[k]) {
      assert PartsFrom(i)[k + 2] == PartsFrom(i + 1)[k];
      assert Carries(accepted[k + 2], m, PartsFrom(i)[k + 2]);
    }
  }

  /** The parts of a multi arrive in order. */
  lemma CarriedAreBuffers(accepted: seq<X.Accepted>, m: Memory, objects: seq<Location>)
    requires WellFormed(m) && (forall l :: l in objects ==> Addressable(l.kind, l.part))
    requires CarryAll(accepted, m, objects)
    ensures forall a :: a in accepted ==> |a.buffer| == X.BUFFER_SIZE
  {
  }

  lemma PartsAreCarried(accepted: seq<X.Accepted>, m: Memory, i: nat)
    requires WellFormed(m) && i <= NUM_PARTS && CarryAll(accepted, m, PartsFrom(i))
    ensures forall a :: a in accepted ==> |a.buffer| == X.BUFFER_SIZE
  {
    hide PartsFrom, Carries;
    CarriedAreBuffers(accepted, m, PartsFrom(i));
  }

  lemma NoPartsLeft(w: Memory, accepted: seq<X.Accepted>, m: Memory, active: nat)
    requires WellFormed(w) && WellFormed(m) && CarryAll(accepted, m, PartsFrom(NUM_PARTS))
    requires forall j :: 0 <= j < NUM_PARTS ==> w.parts[j] == m.parts[j]
    ensures accepted == [] && w.parts == m.parts
    ensures StoreAll(w, accepted, active) == Stored(w.(parts := m.parts))
  {
  }

  lemma {:induction false} PartsAreStored(w: Memory, accepted: seq<X.Accepted>, m: Memory, i: nat, active: nat)
    requires WellFormed(w) && WellFormed(m) && i <= NUM_PARTS && CarryAll(accepted, m, PartsFrom(i))
    requires forall j :: 0 <= j < i ==> w.parts[j] == m.parts[j]
    ensures forall a :: a in accepted ==> |a.buffer| == X.BUFFER_SIZE
    ensures StoreAll(w, accepted, active) == Stored(w.(parts := m.parts))
    decreases NUM_PARTS - i
  {
    hide *;
    SixParts(w, m);
    if i == NUM_PARTS {
      NoPartsLeft(w, accepted, m, active);
    } else {
      LaterParts(accepted, m, i);
      PartsAreCarried(accepted, m, i);
      var w2 := w.(parts := w.parts[i := m.parts[i]]);
      PartsAreStored(w2, accepted[2..], m, i + 1, active);
      PartIsStored(w, accepted, m, i, active);
    }
  }

  lemma StoredMeansRestored(w: Memory, accepted: seq<X.Accepted>, source: Memory, kind: Kind, part: nat, active: nat)
    requires WellFormed(w) && WellFormed(source) && part < NUM_PARTS && active < NUM_PARTS
    requires CarryAll(accepted, source, ObjectsOf(kind, part))
    ensures StoreAll(w, accepted, active) == Stored(Restored(w, source, kind, part, active))
  {
    hide PartsFrom, Touch, Store, Write, Read;
    var objects := ObjectsOf(kind, part);
    assert Carries(accepted[0], source, objects[0]);
    CarriedIsStored(w, accepted[0], source, objects[0], active);
    if kind.Program? {
      assert Carries(accepted[1], source, objects[1]);
      CarriedIsStored(Write(w, Patch, active, Read(source, Patch, part)), accepted[1], source, objects[1], active);
      PatchAndSettingsArePart(w, active, source, part);
      assert accepted[1..] == [accepted[1]];
      StoreOne(Write(w, Patch, active, Read(source, Patch, part)), accepted[1], active);
    } else if kind.Multi? {
      assert CarryAll(accepted[1..], source, PartsFrom(0)) by {
        forall k | 0 <= k < |accepted| - 1 ensures Carries(accepted[1..][k], source, PartsFrom(0)[k]) {
          assert Carries(accepted[k + 1], source, objects[k + 1]);
        }
      }
      MultiIsRestored(w, accepted[1..], source, part, active);
    } else {
      assert accepted[1..] == [];
    }
  }

  lemma MultiIsRestored(w: Memory, accepted: seq<X.Accepted>, source: Memory, part: nat, active: nat)
    requires WellFormed(w) && WellFormed(source) && CarryAll(accepted, source, PartsFrom(0))
    ensures StoreAll(Touch(Write(w, Multi, active, Read(source, Multi, part))), accepted, active) ==
            Stored(Touch(source))
  {
    PartsAreStored(Touch(Write(w, Multi, active, Read(source, Multi, part))), accepted, source, 0, active);
  }

  lemma ObjectsCanBeSent(kind: Kind, part: nat)
    requires part < NUM_PARTS
    ensures ObjectsOf(kind, part) != []
    ensures forall l :: l in ObjectsOf(kind, part) ==> Addressable(l.kind, l.part) && l.alias < 0x80
  {
  }

  /**
   A dump of any object, with real-time bytes inserted anywhere, from any state of the parser and of
   the receiver: it ends in reception, and the object is restored.
   */
  lemma DumpRestores(
      s: M.State, rx: X.Rx, w: Memory, source: Memory, kind: Kind, part: nat, active: nat,
      bytes: seq<byte>, channels: set<byte>)
    requires M.WellFormed(s) && X.IsRx(rx) && WellFormed(w)
    requires WellFormed(source) && part < NUM_PARTS && active < NUM_PARTS
    requires M.WithoutRealtime(bytes) == DumpsOf(source, ObjectsOf(kind, part))
    ensures var (r, accepted) := X.After(rx, Delivered(M.ReceiveAll(s, bytes, channels).1), true);
            && r.phase == X.Ok
            && (forall a :: a in accepted ==> |a.buffer| == X.BUFFER_SIZE)
            && StoreAll(w, accepted, active) == Stored(Restored(w, source, kind, part, active))
  {
    hide *;
    var objects := ObjectsOf(kind, part);
    ObjectsCanBeSent(kind, part);
    M.RealtimeIsTransparent(s, bytes, channels);
    RealtimeIsNotDelivered(M.ReceiveAll(s, bytes, channels).1);
    DumpsAreDelivered(s, source, objects, channels);
    DumpsAreReceived(rx, source, objects);
    var accepted := X.After(rx, DumpsOf(source, objects), true).1;
    CarriedAreBuffers(accepted, source, objects);
    StoredMeansRestored(w, accepted, source, kind, part, active);
  }
}
