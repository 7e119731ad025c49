/** System exclusive dumps of the stored objects, and the receiver that stores them. */
module SysEx {
  // The receiver's buffer is the file system's sector buffer, which keeps what it held before.
  // Answering a request and `SYSEX_POKE_COMMAND` are not part of this model: such a message is
  // recognized and accepted, and that is all.

  import opened Arithmetic
  import opened Bytes
  import opened Objects

  const HEADER: seq<byte> := [0xf0, 0x00, 0x21, 0x02, 0x00, 0x04]
  const BUFFER_SIZE := 512

  // ---- Sending ----

  function Nibbles(data: seq<byte>): (r: seq<byte>)
    ensures |r| == 2 * |data|
    ensures forall i {:trigger r[i]} :: 0 <= i < |r| ==>
              r[i] == if i % 2 == 0 then data[i / 2] / 16 else data[i / 2] % 16
  {
    seq(2 * |data|, i requires 0 <= i < 2 * |data| => if i % 2 == 0 then data[i / 2] / 16 else data[i / 2] % 16)
  }

  /** The 8-bit sum. */
  function Sum(data: seq<byte>): byte {
    if data == [] then 0 else (Sum(data[..|data| - 1]) + data[|data| - 1]) % 256
  }

  function Dump(command: byte, argument: byte, data: seq<byte>): (m: seq<byte>)
    ensures |m| == 2 * |data| + 11
  {
    HEADER + [command, argument] + Nibbles(data + [Sum(data)]) + [0xf7]
  }

  method SysExSendRaw(command: byte, argument: byte, data: seq<byte>) returns (sent: seq<byte>)
    ensures sent == Dump(command, argument, data)
  {
    sent := HEADER + [command] + [argument];
    var checksum: byte := 0;
    for i := 0 to |data|
      invariant checksum == Sum(data[..i])
      invariant sent == HEADER + [command, argument] + Nibbles(data[..i])
    {
      assert data[..i + 1][..i] == data[..i];
      checksum := (checksum + data[i]) % 256;
      sent := sent + [data[i] / 16] + [data[i] % 16];
      assert Nibbles(data[..i + 1]) == Nibbles(data[..i]) + [data[i] / 16] + [data[i] % 16];
    }
    assert data[..|data|] == data;
    sent := sent + [checksum / 16] + [checksum % 16];
    assert Nibbles(data + [checksum]) == Nibbles(data) + [checksum / 16] + [checksum % 16];
    sent := sent + [0xf7];
  }

  // ---- Receiving ----

  datatype Phase = InHeader | InCommand | InData | InFooter | Ok | Failed

  /** Nothing but `phase`, `checksum` and `received` is reset when a message starts. */
  datatype Rx = Rx(
    phase: Phase, received: nat, expected: nat, command: byte, argument: byte, checksum: byte, buffer: seq<byte>)

  /** A message that is acted on. */
  datatype Accepted = Accepted(command: byte, argument: byte, buffer: seq<byte>)

  predicate Known(command: byte) {
    1 <= command <= 5 || command == 0x0f || 0x11 <= command <= 0x18 || command == 0x1a || command == 0x1f
  }

  /** How many data bytes a known command brings. */
  function PayloadSize(command: byte, argument: byte): (n: nat)
    requires Known(command)
    ensures n <= 257
  {
    if command <= 5 then SizeOf(KindOf(command - 1))
    else if command == 0x0f then 2 + argument as nat
    else if command <= 0x15 then 0
    else if command == 0x1f then 2
    else 1
  }

  /**
   What a command announces: the object it brings; the bytes to poke and their address; nothing for a request of an
   object; the slot for a request of a name; an address to peek at.  Any other command announces what the last did.
   */
  ghost predicate Announces(command: byte, argument: byte, size: nat, before: nat) {
    match command
    case 0x01 => size == PATCH_SIZE
    case 0x02 => size == SEQUENCE_SIZE
    case 0x03 => size == PART_SIZE
    case 0x04 => size == MULTI_SIZE
    case 0x05 => size == SETTINGS_SIZE
    case 0x0f => size == 2 + argument as nat
    case 0x11 | 0x12 | 0x13 | 0x14 | 0x15 => size == 0
    case 0x16 | 0x17 | 0x18 | 0x1a => size == 1
    case 0x1f => size == 2
    case _ => size == before
  }

  lemma SizeIsAnnounced(command: byte, argument: byte, before: nat)
    ensures Announces(command, argument, if Known(command) then PayloadSize(command, argument) else before, before)
  {
  }

  ghost predicate IsRx(rx: Rx) {
    && |rx.buffer| == BUFFER_SIZE && rx.expected <= 257
    && (rx.phase.InHeader? ==> rx.received < |HEADER|)
    && (rx.phase.InCommand? ==> rx.received < 2)
    && (rx.phase.InData? ==>
       rx.received < 2 * (1 + rx.expected) && (rx.received % 2 == 1 ==> rx.buffer[rx.received / 2] % 16 == 0))
  }

  function Restart(rx: Rx, b: byte): Rx {
    if b == 0xf0 then rx.(checksum := 0, received := 0, phase := InHeader) else rx
  }

  function InHeaderStep(rx: Rx, b: byte): Rx
    requires rx.received < |HEADER|
  {
    if HEADER[rx.received] != b then rx.(phase := InFooter)
    else if rx.received + 1 == |HEADER| then rx.(phase := InCommand, received := 0)
    else rx.(received := rx.received + 1)
  }

  function InCommandStep(rx: Rx, b: byte): Rx {
    if rx.received == 0 then rx.(command := b, received := 1)
    else if Known(rx.command) then
      rx.(argument := b, received := 0, phase := InData, expected := PayloadSize(rx.command, b))
    else rx.(argument := b, received := 0, phase := InFooter)
  }

  function InDataStep(rx: Rx, b: byte): Rx
    requires rx.received / 2 < |rx.buffer|
  {
    var i := rx.received / 2;
    var value: byte := if rx.received % 2 == 1 then rx.buffer[i] - rx.buffer[i] % 16 + b % 16 else b % 16 * 16;
    rx.(buffer := rx.buffer[i := value],
        checksum := if rx.received % 2 == 1 && i < rx.expected then (rx.checksum + value) % 256 else rx.checksum,
        received := rx.received + 1,
        phase := if rx.received + 1 == 2 * (1 + rx.expected) then InFooter else InData)
  }

  predicate Closes(rx: Rx, b: byte, enabled: bool)
    requires rx.expected < |rx.buffer|
  {
    b == 0xf7 && rx.checksum == rx.buffer[rx.expected] && enabled && Known(rx.command)
  }

  function Step(rx: Rx, b: byte, enabled: bool): (r: (Rx, seq<Accepted>))
    requires IsRx(rx)
    ensures IsRx(r.0)
  {
    var rx := Restart(rx, b);
    match rx.phase
    case InHeader => (InHeaderStep(rx, b), [])
    case InCommand => (InCommandStep(rx, b), [])
    case InData => (InDataStep(rx, b), [])
    case InFooter =>
      if Closes(rx, b, enabled) then (rx.(phase := Ok), [Accepted(rx.command, rx.argument, rx.buffer)])
      else (rx.(phase := Failed), [])
    case _ => (rx, [])
  }

  function After(rx: Rx, bytes: seq<byte>, enabled: bool): (r: (Rx, seq<Accepted>))
    requires IsRx(rx)
    ensures IsRx(r.0)
  {
    if bytes == [] then (rx, [])
    else
      var (before, accepted) := After(rx, bytes[..|bytes| - 1], enabled);
      var (now, more) := Step(before, bytes[|bytes| - 1], enabled);
      (now, accepted + more)
  }

  // ---- What a receiver makes of a whole message ----

  lemma AfterOneMore(rx: Rx, bytes: seq<byte>, b: byte, enabled: bool)
    requires IsRx(rx)
    ensures var (before, accepted) := After(rx, bytes, enabled);
            var (now, more) := Step(before, b, enabled);
            After(rx, bytes + [b], enabled) == (now, accepted + more)
  {
    assert (bytes + [b])[..|bytes|] == bytes;
  }

  lemma {:induction false} AfterInTwo(rx: Rx, a: seq<byte>, b: seq<byte>, enabled: bool)
    requires IsRx(rx)
    ensures var (rx', first) := After(rx, a, enabled);
            var (rx'', second) := After(rx', b, enabled);
            After(rx, a + b, enabled) == (rx'', first + second)
  {
    hide Step, IsRx;
    if b == [] {
      assert a + b == a;
      assert After(rx, a, enabled).1 + [] == After(rx, a, enabled).1;
    } else {
      var init, last := b[..|b| - 1], b[|b| - 1];
      AfterInTwo(rx, a, init, enabled);
      assert a + b == (a + init) + [last] && b == init + [last];
      AfterOneMore(rx, a + init, last, enabled);
      var (rx', first) := After(rx, a, enabled);
      AfterOneMore(rx', init, last, enabled);
      var (rx'', second) := After(rx', init, enabled);
      assert first + (second + Step(rx'', last, enabled).1) == first + second + Step(rx'', last, enabled).1;
    }
  }

  /** The receiver after so many bytes of the header. */
  function AtHeader(rx: Rx, k: nat): Rx {
    rx.(checksum := 0, received := if k == |HEADER| then 0 else k,
        phase := if k == |HEADER| then InCommand else InHeader)
  }

  lemma HeaderStarts(rx: Rx, enabled: bool)
    requires IsRx(rx)
    ensures Step(rx, 0xf0, enabled) == (AtHeader(rx, 1), [])
  {
    hide Closes, InCommandStep, InDataStep;
  }

  lemma HeaderContinues(rx: Rx, k: nat, enabled: bool)
    requires IsRx(rx) && 0 < k < |HEADER|
    ensures IsRx(AtHeader(rx, k)) && Step(AtHeader(rx, k), HEADER[k], enabled) == (AtHeader(rx, k + 1), [])
  {
    hide Closes, InCommandStep, InDataStep;
    assert HEADER[k] != 0xf0;
  }

  lemma {:induction false} HeaderMatched(rx: Rx, k: nat, enabled: bool)
    requires IsRx(rx) && 0 < k <= |HEADER|
    ensures After(rx, HEADER[..k], enabled) == (AtHeader(rx, k), [])
  {
    hide Step, IsRx, AtHeader;
    var none: seq<Accepted> := [];
    assert none + none == none;
    if k == 1 {
      assert HEADER[..1] == [] + [HEADER[0]] && HEADER[0] == 0xf0;
      assert After(rx, [], enabled) == (rx, []);
      HeaderStarts(rx, enabled);
      AfterOneMore(rx, [], 0xf0, enabled);
    } else {
      HeaderMatched(rx, k - 1, enabled);
      HeaderContinues(rx, k - 1, enabled);
      assert HEADER[..k] == HEADER[..k - 1] + [HEADER[k - 1]];
      AfterOneMore(rx, HEADER[..k - 1], HEADER[k - 1], enabled);
    }
  }

  /** The receiver once it has the command and its argument. */
  function Commanded(rx: Rx, command: byte, argument: byte): Rx {
    if Known(command) then
      Rx(InData, 0, PayloadSize(command, argument), command, argument, 0, rx.buffer)
    else
      Rx(InFooter, 0, rx.expected, command, argument, 0, rx.buffer)
  }

  lemma CommandTaken(rx: Rx, command: byte, argument: byte, enabled: bool)
    requires IsRx(rx) && command != 0xf0 && argument != 0xf0
    ensures After(rx, HEADER + [command, argument], enabled) == (Commanded(rx, command, argument), [])
    ensures After(rx, HEADER + [command], enabled).0.phase == InCommand
    ensures After(rx, HEADER + [command], enabled).1 == []
  {
    HeaderMatched(rx, |HEADER|, enabled);
    assert HEADER[..|HEADER|] == HEADER;
    AfterOneMore(rx, HEADER, command, enabled);
    assert HEADER + [command] + [argument] == HEADER + [command, argument];
    AfterOneMore(rx, HEADER + [command], argument, enabled);
  }

  /** Two bytes of a dump make one byte of data; their upper halves do not matter. */
  function Joined(nibbles: seq<byte>): (r: seq<byte>)
    ensures |r| == |nibbles| / 2
    ensures forall i {:trigger r[i]} :: 0 <= i < |r| ==> r[i] == nibbles[2 * i] % 16 * 16 + nibbles[2 * i + 1] % 16
  {
    seq(|nibbles| / 2,
        i requires 0 <= i < |nibbles| / 2 => (nibbles[2 * i] % 16 * 16 + nibbles[2 * i + 1] % 16) as byte)
  }

  /** The part of the data that enters the checksum. */
  function Summed(nibbles: seq<byte>, size: nat): byte {
    var data := Joined(nibbles);
    Sum(if |data| <= size then data else data[..size])
  }

  /** The receiver in the middle of the data: what the buffer holds, and its sum. */
  ghost predicate Holds(rx: Rx, start: Rx, nibbles: seq<byte>)
    requires IsRx(rx) && IsRx(start) && |nibbles| <= 2 * (1 + start.expected)
  {
    && rx == start.(received := |nibbles|, checksum := Summed(nibbles, start.expected), buffer := rx.buffer,
                    phase := if |nibbles| == 2 * (1 + start.expected) then InFooter else InData)
    && (forall i :: 0 <= i < |nibbles| / 2 ==> rx.buffer[i] == Joined(nibbles)[i])
    && (|nibbles| % 2 == 1 ==> rx.buffer[|nibbles| / 2] == nibbles[|nibbles| - 1] % 16 * 16)
  }

  lemma JoinOneMore(nibbles: seq<byte>)
    requires nibbles != []
    ensures var init := nibbles[..|nibbles| - 1];
            if |nibbles| % 2 == 1 then Joined(nibbles) == Joined(init)
            else
              Joined(nibbles) ==
              Joined(init) + [(nibbles[|nibbles| - 2] % 16 * 16 + nibbles[|nibbles| - 1] % 16) as byte]
  {
  }

  lemma SumOneMore(nibbles: seq<byte>, size: nat)
    requires nibbles != []
    ensures var before := Summed(nibbles[..|nibbles| - 1], size);
            Summed(nibbles, size) ==
            if |nibbles| % 2 == 0 && |nibbles| / 2 <= size then (before + Joined(nibbles)[|nibbles| / 2 - 1]) % 256
            else before
  {
    JoinOneMore(nibbles);
    var data, before := Joined(nibbles), Joined(nibbles[..|nibbles| - 1]);
    hide Joined;
    if |nibbles| % 2 == 0 {
      assert data[..|data| - 1] == before;
      if |data| > size {
        assert data[..size] == before[..size];
        if |before| == size {
          assert before[..size] == before;
        }
      }
    }
  }

  lemma HoldsOneMore(rx: Rx, start: Rx, nibbles: seq<byte>, enabled: bool)
    requires IsRx(start) && IsRx(rx) && 0 < |nibbles| <= 2 * (1 + start.expected) && nibbles[|nibbles| - 1] != 0xf0
    requires Holds(rx, start, nibbles[..|nibbles| - 1])
    ensures var (r, accepted) := Step(rx, nibbles[|nibbles| - 1], enabled); accepted == [] && Holds(r, start, nibbles)
  {
    hide Sum, Closes, InCommandStep, InHeaderStep, Summed, Known, Joined;
    JoinOneMore(nibbles);
    SumOneMore(nibbles, start.expected);
    var init, last := nibbles[..|nibbles| - 1], nibbles[|nibbles| - 1];
    if |nibbles| % 2 == 0 {
      assert init[|init| - 1] == nibbles[|nibbles| - 2];
    }
  }

  lemma {:induction false} DataCollected(start: Rx, nibbles: seq<byte>, enabled: bool)
    requires IsRx(start) && start.phase.InData? && start.received == 0 && start.checksum == 0
    requires |nibbles| <= 2 * (1 + start.expected) && 0xf0 !in nibbles
    ensures var (rx, accepted) := After(start, nibbles, enabled); accepted == [] && Holds(rx, start, nibbles)
  {
    if nibbles == [] {
      assert Joined([]) == [];
    } else {
      hide Holds, Step, IsRx;
      DataCollected(start, nibbles[..|nibbles| - 1], enabled);
      HoldsOneMore(After(start, nibbles[..|nibbles| - 1], enabled).0, start, nibbles, enabled);
    }
  }

  lemma {:induction false} FailedStays(rx: Rx, rest: seq<byte>, enabled: bool)
    requires IsRx(rx) && rx.phase.Failed? && 0xf0 !in rest
    ensures After(rx, rest, enabled) == (rx, [])
  {
    if rest != [] {
      assert rest[|rest| - 1] in rest;
      var none: seq<Accepted> := [];
      assert none + none == none;
      FailedStays(rx, rest[..|rest| - 1], enabled);
    }
  }

  lemma FooterByte(rx: Rx, b: byte, enabled: bool)
    requires IsRx(rx) && rx.phase.InFooter? && b != 0xf0
    ensures After(rx, [b], enabled) ==
            if Closes(rx, b, enabled) then (rx.(phase := Ok), [Accepted(rx.command, rx.argument, rx.buffer)])
            else (rx.(phase := Failed), [])
  {
    hide Known;
    AfterOneMore(rx, [], b, enabled);
    var more := Step(rx, b, enabled).1;
    assert [] + [b] == [b] && [] + more == more;
  }

  /** Once the receiver waits for the footer, only the very next byte can complete the message. */
  lemma FooterDecides(rx: Rx, rest: seq<byte>, enabled: bool)
    requires IsRx(rx) && rx.phase.InFooter? && 0xf0 !in rest && 0xf7 !in rest
    ensures var (r, accepted) := After(rx, rest + [0xf7], enabled);
            if rest == [] && Closes(rx, 0xf7, enabled) then
              r == rx.(phase := Ok) && accepted == [Accepted(rx.command, rx.argument, rx.buffer)]
            else r.phase == Failed && accepted == []
  {
    hide After, Known;
    if rest == [] {
      FooterByte(rx, 0xf7, enabled);
      assert rest + [0xf7] == [0xf7];
    } else {
      assert rest[0] in rest && forall b :: b in rest[1..] ==> b in rest;
      FooterByte(rx, rest[0], enabled);
      AfterInTwo(rx, [rest[0]], rest[1..] + [0xf7], enabled);
      assert rest + [0xf7] == [rest[0]] + (rest[1..] + [0xf7]);
      FailedStays(rx.(phase := Failed), rest[1..] + [0xf7], enabled);
    }
  }

  /** So many data bytes as nibbles, and after them the nibbles of their sum. */
  predicate Checks(nibbles: seq<byte>, size: nat) {
    |nibbles| == 2 * (1 + size) && Joined(nibbles)[size] == Sum(Joined(nibbles)[..size])
  }

  /** A message with the right header, a known command, as many data bytes as it calls for, and their sum. */
  predicate IsDump(m: seq<byte>) {
    && |m| >= 11 && m[..|HEADER|] == HEADER && Known(m[6]) && m[|m| - 1] == 0xf7
    && Checks(m[8..|m| - 1], PayloadSize(m[6], m[7]))
  }

  /**
   The message that slips through: its header breaks off just before the end, while what the receiver
   kept of an earlier message has a zero for its checksum.
   */
  predicate Repeats(rx: Rx, m: seq<byte>)
    requires rx.expected < |rx.buffer|
  {
    && 3 <= |m| <= 7 && m[..|m| - 2] == HEADER[..|m| - 2] && m[|m| - 2] != HEADER[|m| - 2] && m[|m| - 1] == 0xf7
    && rx.buffer[rx.expected] == 0 && Known(rx.command)
  }

  /** The shape in which the parser delivers a message. */
  predicate Framed(m: seq<byte>) {
    && |m| >= 2 && m[0] == 0xf0 && m[|m| - 1] == 0xf7
    && forall i :: 1 <= i < |m| - 1 ==> m[i] < 0x80
  }

  lemma MatchedHeader(m: seq<byte>) returns (j: nat)
    requires Framed(m)
    ensures 0 < j <= |HEADER| && j < |m| && m[..j] == HEADER[..j] && (j < |HEADER| ==> m[j] != HEADER[j])
  {
    j := 1;
    while j < |HEADER| && m[j] == HEADER[j]
      invariant 0 < j <= |HEADER| && j < |m| && m[..j] == HEADER[..j]
    {
      assert m[..j + 1] == m[..j] + [m[j]] && HEADER[..j + 1] == HEADER[..j] + [HEADER[j]];
      j := j + 1;
    }
  }

  lemma HeaderBroken(rx: Rx, j: nat, b: byte, enabled: bool)
    requires IsRx(rx) && 0 < j < |HEADER| && b != 0xf0 && b != HEADER[j]
    ensures After(rx, HEADER[..j] + [b], enabled) == (rx.(checksum := 0, received := j, phase := InFooter), [])
  {
    hide Closes, InDataStep, InCommandStep;
    HeaderMatched(rx, j, enabled);
    AfterOneMore(rx, HEADER[..j], b, enabled);
  }

  /** The header breaks off at its j-th byte. */
  lemma BrokenHeader(rx: Rx, m: seq<byte>, j: nat, enabled: bool)
    requires IsRx(rx) && Framed(m) && 0 < j < |HEADER| && j < |m| && m[..j] == HEADER[..j] && m[j] != HEADER[j]
    ensures var (r, accepted) := After(rx, m, enabled);
            if j == |m| - 2 && Closes(rx.(checksum := 0), 0xf7, enabled) then
              r.phase == Ok && accepted == [Accepted(rx.command, rx.argument, rx.buffer)]
            else r.phase != Ok && accepted == []
  {
    hide Known, After, Closes, Step, IsRx;
    HeaderBroken(rx, j, m[j], enabled);
    assert m[..j + 1] == HEADER[..j] + [m[j]];
    var broken := rx.(checksum := 0, received := j, phase := InFooter);
    if |m| == j + 1 {
      assert m[..j + 1] == m;
    } else {
      var rest := m[j + 1..|m| - 1];
      BrokenIsClosed(rx, j, rest, enabled);
      AfterInTwo(rx, m[..j + 1], rest + [0xf7], enabled);
      assert m == m[..j + 1] + (rest + [0xf7]);
    }
  }

  lemma BrokenIsClosed(rx: Rx, j: nat, rest: seq<byte>, enabled: bool)
    requires IsRx(rx) && 0xf0 !in rest && 0xf7 !in rest
    ensures IsRx(rx.(checksum := 0, received := j, phase := InFooter))
    ensures var (r, accepted) := After(rx.(checksum := 0, received := j, phase := InFooter), rest + [0xf7], enabled);
            if rest == [] && Closes(rx.(checksum := 0), 0xf7, enabled) then
              r.phase == Ok && accepted == [Accepted(rx.command, rx.argument, rx.buffer)]
            else r.phase == Failed && accepted == []
  {
    FooterDecides(rx.(checksum := 0, received := j, phase := InFooter), rest, enabled);
  }

  lemma BreakRepeats(rx: Rx, m: seq<byte>, j: nat, enabled: bool)
    requires IsRx(rx) && Framed(m) && 0 < j < |HEADER| && j < |m| && m[..j] == HEADER[..j] && m[j] != HEADER[j]
    ensures enabled && Repeats(rx, m) <==> j == |m| - 2 && Closes(rx.(checksum := 0), 0xf7, enabled)
  {
    hide Known;
    if Repeats(rx, m) {
      forall k | 0 <= k < |m| - 2 ensures m[k] == HEADER[k] {
        assert m[..|m| - 2][k] == HEADER[..|m| - 2][k];
      }
    }
  }

  /** The header is complete; command and argument may or may not follow. */
  lemma ShortMessage(rx: Rx, m: seq<byte>, enabled: bool)
    requires IsRx(rx) && Framed(m) && 7 <= |m| <= 8 && m[..|HEADER|] == HEADER
    ensures After(rx, m, enabled).0.phase != Ok && After(rx, m, enabled).1 == []
  {
    hide After;
    assert m[..6] == HEADER && m[6] != 0xf0 && m[|m| - 1] != 0xf0;
    if |m| == 7 {
      CommandTaken(rx, m[6], 0, enabled);
      assert m == m[..6] + [m[6]];
    } else {
      CommandTaken(rx, m[6], m[7], enabled);
      assert m == m[..6] + [m[6], m[7]];
    }
  }

  lemma UnknownCommand(rx: Rx, m: seq<byte>, enabled: bool)
    requires IsRx(rx) && Framed(m) && 9 <= |m| && m[..|HEADER|] == HEADER && !Known(m[6])
    ensures After(rx, m, enabled).0.phase != Ok && After(rx, m, enabled).1 == []
  {
    hide After;
    var start, head, rest := Commanded(rx, m[6], m[7]), HEADER + [m[6], m[7]], m[8..|m| - 1];
    assert m[6] != 0xf0 && m[7] != 0xf0;
    CommandTaken(rx, m[6], m[7], enabled);
    forall b | b in rest ensures b < 0x80 {
      assert exists i :: 1 <= i < |m| - 1 && m[i] == b;
    }
    FooterDecides(start, rest, enabled);
    AfterInTwo(rx, head, rest + [0xf7], enabled);
    assert m[..8] == head by {
      assert m[..8] == m[..6] + [m[6], m[7]];
    }
    assert m[8..] == rest + [0xf7];
    assert m == head + (rest + [0xf7]);
  }

  /** The accepted message has these data in the buffer. */
  ghost predicate Brings(a: Accepted, command: byte, argument: byte, nibbles: seq<byte>) {
    && a.command == command && a.argument == argument && |a.buffer| == BUFFER_SIZE && |nibbles| <= 2 * BUFFER_SIZE
    && a.buffer[..|nibbles| / 2] == Joined(nibbles)
  }

  /** What a receiver keeps of an accepted message. */
  ghost predicate Keeps(rx: Rx, a: Accepted, size: nat) {
    rx.phase == Ok && rx.command == a.command && rx.argument == a.argument && rx.buffer == a.buffer &&
        rx.expected == size
  }

  /** All the data and the checksum, then the rest of the message. */
  lemma DataThenRest(start: Rx, nibbles: seq<byte>, rest: seq<byte>, enabled: bool)
    requires IsRx(start) && start.phase.InData? && start.received == 0 && start.checksum == 0 && Known(start.command)
    requires |nibbles| == 2 * (1 + start.expected) && 0xf0 !in nibbles && 0xf0 !in rest && 0xf7 !in rest
    ensures var (r, accepted) := After(start, nibbles + (rest + [0xf7]), enabled);
            if enabled && rest == [] && Checks(nibbles, start.expected) then
              |accepted| == 1 && Keeps(r, accepted[0], start.expected) &&
                  Brings(accepted[0], start.command, start.argument, nibbles)
            else r.phase != Ok && accepted == []
  {
    hide After, Sum, Step, Known;
    DataCollected(start, nibbles, enabled);
    var full := After(start, nibbles, enabled).0;
    AfterInTwo(start, nibbles, rest + [0xf7], enabled);
    FooterDecides(full, rest, enabled);
    assert full.buffer[..1 + start.expected] == Joined(nibbles);
  }

  lemma DataCutShort(start: Rx, tail: seq<byte>, enabled: bool)
    requires IsRx(start) && start.phase.InData? && start.received == 0 && start.checksum == 0
    requires |tail| <= 2 * (1 + start.expected) && 0xf0 !in tail
    ensures After(start, tail, enabled).0.phase != Ok && After(start, tail, enabled).1 == []
  {
    DataCollected(start, tail, enabled);
  }

  /** Whatever comes after the command. */
  lemma DataReceived(start: Rx, body: seq<byte>, enabled: bool)
    requires IsRx(start) && start.phase.InData? && start.received == 0 && start.checksum == 0 && Known(start.command)
    requires 0xf0 !in body && 0xf7 !in body
    ensures var (r, accepted) := After(start, body + [0xf7], enabled);
            if enabled && Checks(body, start.expected) then
              |accepted| == 1 && Keeps(r, accepted[0], start.expected) &&
                  Brings(accepted[0], start.command, start.argument, body)
            else r.phase != Ok && accepted == []
  {
    hide After, Brings, Joined, Sum, Known, IsRx;
    var full := 2 * (1 + start.expected);
    if |body| < full {
      DataCutShort(start, body + [0xf7], enabled);
    } else {
      var nibbles, rest := body[..full], body[full..];
      assert body == nibbles + rest;
      DataThenRest(start, nibbles, rest, enabled);
      assert body + [0xf7] == nibbles + (rest + [0xf7]);
      assert rest == [] ==> body == nibbles;
    }
  }

  lemma FramedParts(m: seq<byte>)
    requires Framed(m) && 9 <= |m| && m[..|HEADER|] == HEADER
    ensures var body := m[8..|m| - 1]; 0xf0 !in body && 0xf7 !in body && m == HEADER + [m[6], m[7]] + (body + [0xf7])
    ensures m[6] != 0xf0 && m[7] != 0xf0
    ensures Known(m[6]) ==> (IsDump(m) <==> Checks(m[8..|m| - 1], PayloadSize(m[6], m[7])))
  {
  }

  lemma KnownCommand(rx: Rx, m: seq<byte>, enabled: bool)
    requires IsRx(rx) && Framed(m) && 9 <= |m| && m[..|HEADER|] == HEADER && Known(m[6])
    ensures var (r, accepted) := After(rx, m, enabled);
            if enabled && IsDump(m) then
              |accepted| == 1 && Keeps(r, accepted[0], PayloadSize(m[6], m[7])) &&
                  Brings(accepted[0], m[6], m[7], m[8..|m| - 1])
            else r.phase != Ok && accepted == []
  {
    FramedParts(m);
    hide After, Checks, Brings, Step, PayloadSize, Known, IsRx, Framed, IsDump;
    CommandTaken(rx, m[6], m[7], enabled);
    var start, body := Commanded(rx, m[6], m[7]), m[8..|m| - 1];
    DataReceived(start, body, enabled);
    AfterInTwo(rx, HEADER + [m[6], m[7]], body + [0xf7], enabled);
  }

  lemma OtherHeader(m: seq<byte>, j: nat)
    requires j < |HEADER| && j < |m| && m[j] != HEADER[j]
    ensures !IsDump(m)
  {
    if |m| >= |HEADER| {
      assert m[..|HEADER|][j] == m[j];
    }
  }

  lemma WholeHeader(rx: Rx, m: seq<byte>)
    requires IsRx(rx) && |m| > |HEADER| && m[..|HEADER|] == HEADER
    ensures !Repeats(rx, m)
  {
    forall k | 0 <= k < |HEADER| ensures m[k] == HEADER[k] {
      assert m[..|HEADER|][k] == m[k];
    }
  }

  /** A framed message is acted on exactly when it is a dump, or repeats an old one by accident. */
  lemma AcceptedExactly(rx: Rx, m: seq<byte>, enabled: bool)
    requires IsRx(rx) && Framed(m)
    ensures After(rx, m, enabled).0.phase == Ok <==> enabled && (IsDump(m) || Repeats(rx, m))
    ensures After(rx, m, enabled).1 != [] <==> enabled && (IsDump(m) || Repeats(rx, m))
  {
    hide After, Known, Checks, Closes, IsRx;
    var j := MatchedHeader(m);
    if j < |HEADER| {
      BrokenHeader(rx, m, j, enabled);
      BreakRepeats(rx, m, j, enabled);
      OtherHeader(m, j);
    } else {
      WholeHeader(rx, m);
      if |m| <= 8 {
        ShortMessage(rx, m, enabled);
      } else if Known(m[6]) {
        KnownCommand(rx, m, enabled);
      } else {
        UnknownCommand(rx, m, enabled);
      }
    }
  }

  // ---- Dumps are received, damaged dumps are not ----

  lemma DumpParts(command: byte, argument: byte, data: seq<byte>)
    ensures var m := Dump(command, argument, data);
            && m[..|HEADER|] == HEADER && m[6] == command && m[7] == argument && m[|m| - 1] == 0xf7
            && m[8..|m| - 1] == Nibbles(data + [Sum(data)])
  {
  }

  lemma DumpFields(command: byte, argument: byte, data: seq<byte>)
    ensures |HEADER| == 6
    ensures var m := Dump(command, argument, data); m[..|HEADER|] == HEADER && m[6] == command && m[7] == argument
  {
    DumpParts(command, argument, data);
  }

  lemma NibblesJoin(data: seq<byte>)
    ensures Joined(Nibbles(data)) == data
  {
  }

  lemma DumpIsDump(command: byte, argument: byte, data: seq<byte>)
    requires command < 0x80 && argument < 0x80 && Known(command) && |data| == PayloadSize(command, argument)
    ensures var m := Dump(command, argument, data);
            Framed(m) && IsDump(m) && Joined(m[8..|m| - 1]) == data + [Sum(data)]
  {
    hide Sum, Known, PayloadSize;
    DumpParts(command, argument, data);
    NibblesJoin(data + [Sum(data)]);
    assert (data + [Sum(data)])[..|data|] == data;
  }

  lemma PrefixOfPrefix(buffer: seq<byte>, data: seq<byte>, b: byte)
    requires |data| < |buffer| && buffer[..|data| + 1] == data + [b]
    ensures buffer[..|data|] == data && buffer[|data|] == b
  {
    assert buffer[..|data|] == buffer[..|data| + 1][..|data|];
    assert buffer[|data|] == buffer[..|data| + 1][|data|];
  }

  lemma DumpIsAccepted(rx: Rx, command: byte, argument: byte, data: seq<byte>)
    requires IsRx(rx) && command < 0x80 && argument < 0x80 && Known(command) && |data| == PayloadSize(command, argument)
    ensures var (r, accepted) := After(rx, Dump(command, argument, data), true);
            && |accepted| == 1 && Keeps(r, accepted[0], |data|) && |accepted[0].buffer| == BUFFER_SIZE
            && accepted[0].command == command && accepted[0].argument == argument
            && accepted[0].buffer[..|data|] == data
            && accepted[0].buffer[|data|] == Sum(data)
  {
    hide *;
    var m := Dump(command, argument, data);
    DumpIsDump(command, argument, data);
    DumpFields(command, argument, data);
    KnownCommand(rx, m, true);
    DataBrought(After(rx, m, true).1[0], command, argument, m[8..|m| - 1], data);
  }

  lemma DataBrought(a: Accepted, command: byte, argument: byte, nibbles: seq<byte>, data: seq<byte>)
    requires Brings(a, command, argument, nibbles) && Joined(nibbles) == data + [Sum(data)]
    ensures |a.buffer| == BUFFER_SIZE && |data| < |a.buffer| && a.command == command && a.argument == argument
    ensures a.buffer[..|data|] == data && a.buffer[|data|] == Sum(data)
  {
    hide Joined, Sum;
    PrefixOfPrefix(a.buffer, data, Sum(data));
  }

  lemma {:induction false} SumOfZeros(n: nat)
    ensures Sum(seq(n, _ => 0)) == 0
  {
    if n > 0 {
      SumOfZeros(n - 1);
      var zeros: seq<byte> := seq(n, _ => 0);
      assert zeros[..n - 1] == seq(n - 1, _ => 0);
    }
  }

  /** A message that breaks off in its header is acted on when the receiver kept a zero for a checksum. */
  lemma BrokenHeaderRepeats(rx: Rx)
    requires IsRx(rx) && Known(rx.command) && rx.buffer[rx.expected] == 0
    ensures After(rx, [0xf0, 0x7e, 0xf7], true).1 == [Accepted(rx.command, rx.argument, rx.buffer)]
  {
    hide After, Known;
    var m: seq<byte> := [0xf0, 0x7e, 0xf7];
    assert m[..1] == HEADER[..1];
    BrokenHeader(rx, m, 1, true);
  }

  /**
   The accident happens: whatever the receiver's state, after the dump of a patch of zeros it stores that
   patch a second time when it hears the foreign message F0 7E F7.
   */
  lemma ForeignMessageRepeats(rx: Rx, argument: byte)
    requires IsRx(rx) && argument < 0x80
    ensures var zeros: seq<byte> := seq(112, _ => 0);
            var (dumped, first) := After(rx, Dump(0x01, argument, zeros), true);
            && |first| == 1 && |first[0].buffer| == BUFFER_SIZE && first[0].command == 0x01
            && first[0].argument == argument && first[0].buffer[..112] == zeros
            && After(dumped, [0xf0, 0x7e, 0xf7], true).1 == first
    ensures !IsDump([0xf0, 0x7e, 0xf7])
  {
    var zeros: seq<byte> := seq(112, _ => 0);
    assert Known(0x01) && PayloadSize(0x01, argument) == 112;
    hide After, Dump, IsRx, IsDump, Sum, Known, PayloadSize;
    DumpIsAccepted(rx, 0x01, argument, zeros);
    SumOfZeros(112);
    var (dumped, first) := After(rx, Dump(0x01, argument, zeros), true);
    BrokenHeaderRepeats(dumped);
    assert first == [Accepted(dumped.command, dumped.argument, dumped.buffer)];
    NoDump();
  }

  lemma NoDump()
    ensures !IsDump([0xf0, 0x7e, 0xf7])
  {
  }

  lemma OneMore(data: seq<byte>)
    requires data != []
    ensures Sum(data) == (Sum(data[..|data| - 1]) + data[|data| - 1]) % 256
  {
  }

  lemma AddInAnyOrder(sum: int, a: int, b: int)
    ensures ((sum + a) % 256 + b) % 256 == ((sum + b) % 256 + a) % 256
  {
    AddMod(sum + a, b);
    AddMod(sum + b, a);
  }

  lemma {:induction false} SumOfUpdate(data: seq<byte>, i: nat, v: byte)
    requires i < |data|
    ensures Sum(data[i := v]) as int == (Sum(data) as int + (v as int - data[i] as int)) % 256
  {
    hide *;
    var init, last := data[..|data| - 1], data[|data| - 1] as int;
    var data' := data[i := v];
    var change := v as int - data[i] as int;
    OneMore(data);
    OneMore(data');
    if i == |data| - 1 {
      assert data'[..|data| - 1] == init;
      AddMod(Sum(init) as int + last, change);
    } else {
      SumOfUpdate(init, i, v);
      assert data'[..|data| - 1] == init[i := v];
      AddInAnyOrder(Sum(init) as int, change, last);
    }
  }

  lemma JoinedUpdate(nibbles: seq<byte>, k: nat, b: byte)
    requires k < |nibbles| && |nibbles| % 2 == 0 && nibbles[k] < 16
    ensures var v := Joined(nibbles[k := b])[k / 2];
            Joined(nibbles[k := b]) == Joined(nibbles)[k / 2 := v] &&
                (v == Joined(nibbles)[k / 2] <==> b % 16 == nibbles[k])
  {
    var joined, changed := Joined(nibbles), Joined(nibbles[k := b]);
    forall i | 0 <= i < |joined| && i != k / 2 ensures changed[i] == joined[i] {
      assert 2 * i != k && 2 * i + 1 != k;
    }
    assert changed == joined[k / 2 := changed[k / 2]];
  }

  /** A changed data or checksum byte goes unnoticed exactly when its lower half is the same. */
  lemma ChangedByteIsNoticed(nibbles: seq<byte>, size: nat, k: nat, b: byte)
    requires Checks(nibbles, size) && k < |nibbles| && nibbles[k] < 16
    ensures Checks(nibbles[k := b], size) <==> b % 16 == nibbles[k]
  {
    hide Sum, Joined;
    JoinedUpdate(nibbles, k, b);
    var i, joined := k / 2, Joined(nibbles);
    var v := Joined(nibbles[k := b])[i];
    if i < size {
      SumOfUpdate(joined[..size], i, v);
      assert joined[i := v][..size] == joined[..size][i := v];
    } else {
      assert joined[i := v][..size] == joined[..size];
    }
  }

  lemma DumpNibble(command: byte, argument: byte, data: seq<byte>, k: nat)
    requires 8 <= k < 2 * |data| + 10
    ensures var m := Dump(command, argument, data);
            m[..|HEADER|] == HEADER && m[6] == command && m[7] == argument && m[k] < 16 && m[k] == m[8..|m| - 1][k - 8]
  {
    DumpParts(command, argument, data);
    var nibbles := Nibbles(data + [Sum(data)]);
    assert nibbles[k - 8] < 16;
  }

  lemma DamagedMessage(m: seq<byte>, k: nat, b: byte)
    requires Framed(m) && IsDump(m) && 8 <= k < |m| - 1 && b < 0x80
    ensures var damaged := m[k := b];
            && Framed(damaged) && damaged[..|HEADER|] == HEADER && damaged[6] == m[6] && damaged[7] == m[7]
            && damaged[8..|m| - 1] == m[8..|m| - 1][k - 8 := b]
  {
    hide Checks, Known, PayloadSize;
  }

  /**
   Changing any one data or checksum byte of a dump makes the receiver reject it, unless only its upper half
   changed.
   */
  lemma DamagedDumpIsRejected(rx: Rx, command: byte, argument: byte, data: seq<byte>, k: nat, b: byte)
    requires IsRx(rx) && command < 0x80 && argument < 0x80 && Known(command) && |data| == PayloadSize(command, argument)
    requires 8 <= k < 2 * |data| + 10 && b < 0x80
    ensures var m := Dump(command, argument, data);
            After(rx, m[k := b], true).0.phase == Ok <==> b % 16 == m[k]
  {
    hide After, Known, IsRx, PayloadSize, Joined, Checks, Dump, Framed, IsDump;
    var m := Dump(command, argument, data);
    DumpIsDump(command, argument, data);
    DumpNibble(command, argument, data, k);
    FramedParts(m);
    DamagedMessage(m, k, b);
    FramedParts(m[k := b]);
    ChangedByteIsNoticed(m[8..|m| - 1], |data|, k - 8, b);
    KnownCommand(rx, m[k := b], true);
  }

  class Receiver {
    const buffer: array<byte>
    var phase: Phase
    var received: nat
    var expected: nat
    var command: byte
    var argument: byte
    var checksum: byte
    /** The messages acted on. */
    var accepted: seq<Accepted>

    ghost predicate Valid()
      reads this, buffer
    {
      buffer.Length == BUFFER_SIZE && IsRx(Abs())
    }

    ghost function Abs(): Rx
      reads this, buffer
    {
      Rx(phase, received, expected, command, argument, checksum, buffer[..])
    }

    constructor ()
      ensures Valid() && fresh(buffer) && accepted == [] && phase == InHeader
    {
      phase, received, expected, command, argument, checksum, accepted := InHeader, 0, 0, 0, 0, 0, [];
      buffer := new byte[BUFFER_SIZE];
    }

    method SysExParseCommand()
      modifies this`received, this`phase, this`expected
      ensures received == 0 && phase == (if Known(command) then InData else InFooter)
      ensures expected == if Known(command) then PayloadSize(command, argument) else old(expected)
      ensures Announces(command, argument, expected, old(expected))
    {
      received := 0;
      phase := InData;
      if 1 <= command <= 5 {
        expected := SizeOf(KindOf(command - 1));
      } else if command == 0x0f {
        expected := 2 + argument as nat;
      } else if 0x11 <= command <= 0x15 {
        expected := 0;
      } else if command == 0x16 || command == 0x17 || command == 0x18 || command == 0x1a {
        expected := 1;
      } else if command == 0x1f {
        expected := 2;
      } else {
        phase := InFooter;
      }
    }

    method SysExAcceptCommand()
      requires buffer.Length == BUFFER_SIZE
      modifies this`phase, this`accepted
      ensures phase == if Known(command) then Ok else Failed
      ensures accepted == old(accepted) + if Known(command) then [Accepted(command, argument, buffer[..])] else []
    {
      if Known(command) {
        accepted := accepted + [Accepted(command, argument, buffer[..])];
        phase := Ok;
      } else {
        phase := Failed;
      }
    }

    method ReceiveHeader(b: byte)
      requires Valid() && phase == InHeader
      modifies this`phase, this`received
      ensures Valid() && Abs() == InHeaderStep(old(Abs()), b)
    {
      if HEADER[received] == b {
        received := received + 1;
        if received >= |HEADER| {
          phase := InCommand;
          received := 0;
        }
      } else {
        phase := InFooter;
      }
    }

    method ReceiveCommand(b: byte)
      requires Valid() && phase == InCommand
      modifies this`phase, this`received, this`expected, this`command, this`argument
      ensures Valid() && Abs() == InCommandStep(old(Abs()), b)
    {
      if received == 0 {
        command := b;
      } else {
        argument := b;
      }
      received := received + 1;
      if received == 2 {
        SysExParseCommand();
      }
    }

    /** The lower half of a byte is empty when its upper half has been stored, so adding sets its bits. */
    method ReceiveData(b: byte)
      requires Valid() && phase == InData
      modifies this`received, this`checksum, this`phase, buffer
      ensures Valid() && Abs() == InDataStep(old(Abs()), b)
    {
      hide Closes, Known;
      var i := received / 2;
      if received % 2 == 1 {
        buffer[i] := buffer[i] + b % 16;
        if i < expected {
          checksum := (checksum + buffer[i]) % 256;
        }
      } else {
        buffer[i] := b % 16 * 16;
      }
      received := received + 1;
      if received >= (1 + expected) * 2 {
        phase := InFooter;
      }
    }

    method SysExReceive(b: byte, enabled: bool)
      requires Valid()
      modifies this, buffer
      ensures Valid()
      ensures var (rx, more) := Step(old(Abs()), b, enabled); Abs() == rx && accepted == old(accepted) + more
    {
      hide InHeaderStep, InCommandStep, InDataStep;
      if b == 0xf0 {
        checksum, received, phase := 0, 0, InHeader;
      }
      assert Abs() == Restart(old(Abs()), b) && Valid();
      match phase {
        case InHeader =>
          ReceiveHeader(b);
        case InCommand =>
          ReceiveCommand(b);
        case InData =>
          ReceiveData(b);
        case InFooter =>
          var checksumOk := checksum == buffer[expected];
          if b == 0xf7 && checksumOk && enabled {
            SysExAcceptCommand();
          } else {
            phase := Failed;
          }
        case Ok =>
        case Failed =>
      }
    }
  }
}
