/**
 The MIDI stream parser.  It keeps a running status and the data bytes received since, and calls the
 device once for every complete message.

 The trace of raw messages, `BozoByte` and the thru port are not part of this model.
 */
module MidiParser {
  import opened Bytes

  datatype Call =
    | NoteOff(channel: byte, note: byte, velocity: byte)
    | NoteOn(channel: byte, note: byte, velocity: byte)
    | KeyPressure(channel: byte, note: byte, velocity: byte)
    | ControlChange(channel: byte, controller: byte, value: byte)
    | ProgramChange(channel: byte, program: byte)
    | ChannelPressure(channel: byte, velocity: byte)
    | PitchBend(channel: byte, bend: nat)
    | AllSoundOff(channel: byte)
    | ResetAllControllers(channel: byte)
    | LocalControl(channel: byte, state: byte)
    | AllNotesOff(channel: byte)
    | OmniModeOff(channel: byte)
    | OmniModeOn(channel: byte)
    | MonoModeOn(channel: byte, channels: byte)
    | PolyModeOn(channel: byte)
    | SysExStart
    | SysExByte(value: byte)
    | SysExEnd
    | Clock
    | Start
    | Continue
    | Stop
    | ActiveSensing
    | Reset

  predicate IsRealtime(c: Call) {
    c.Clock? || c.Start? || c.Continue? || c.Stop? || c.ActiveSensing? || c.Reset?
  }

  // ---- What the bytes of a message say (MIDI 1.0 Detailed Specification) ----

  predicate Says(status: byte, data: seq<byte>, call: Call) {
    match call
    case NoteOff(c, n, v) =>
      c < 16 && ((status == 0x80 + c && data == [n, v]) || (status == 0x90 + c && data == [n, 0] && v == 0))
    case NoteOn(c, n, v) => c < 16 && v != 0 && status == 0x90 + c && data == [n, v]
    case KeyPressure(c, n, v) => c < 16 && status == 0xa0 + c && data == [n, v]
    case ControlChange(c, k, v) => c < 16 && k < 0x78 && status == 0xb0 + c && data == [k, v]
    case ProgramChange(c, p) => c < 16 && status == 0xc0 + c && data == [p]
    case ChannelPressure(c, v) => c < 16 && status == 0xd0 + c && data == [v]
    case PitchBend(c, bend) =>
      c < 16 && bend < 0x4000 && status == 0xe0 + c && data == [(bend % 128) as byte, (bend / 128) as byte]
    case AllSoundOff(c) => IsMode(status, data, c, 0x78)
    case ResetAllControllers(c) => IsMode(status, data, c, 0x79)
    case LocalControl(c, v) => IsMode(status, data, c, 0x7a) && data[1] == v
    case AllNotesOff(c) => IsMode(status, data, c, 0x7b)
    case OmniModeOff(c) => IsMode(status, data, c, 0x7c)
    case OmniModeOn(c) => IsMode(status, data, c, 0x7d)
    case MonoModeOn(c, n) => IsMode(status, data, c, 0x7e) && data[1] == n
    case PolyModeOn(c) => IsMode(status, data, c, 0x7f)
    case Clock => status == 0xf8 && data == []
    case Start => status == 0xfa && data == []
    case Continue => status == 0xfb && data == []
    case Stop => status == 0xfc && data == []
    case ActiveSensing => status == 0xfe && data == []
    case Reset => status == 0xff && data == []
    case _ => false
  }

  /** A channel mode message is a control change of a controller number from 120 on. */
  predicate IsMode(status: byte, data: seq<byte>, channel: byte, controller: byte) {
    channel < 16 && status == 0xb0 + channel && |data| == 2 && data[0] == controller
  }

  // ---- The parser as a function of the stream ----

  datatype State = State(status: byte, pending: seq<byte>)

  /** The number of data bytes that the parser waits for. */
  function ExpectedSize(status: byte): (n: nat)
    ensures n <= 2
  {
    if status < 0x80 then 0
    else if 0xc0 <= status < 0xe0 || status == 0xf0 || status == 0xf3 then 1
    else if status >= 0xf4 then 0
    else 2
  }

  ghost predicate WellFormed(s: State) {
    if s.status == 0 then s.pending == [] else 0x80 <= s.status < 0xf4 && |s.pending| < ExpectedSize(s.status)
  }

  function Realtime(b: byte): (calls: seq<Call>)
    ensures forall c :: c in calls ==> IsRealtime(c)
  {
    if b == 0xf8 then [Clock]
    else if b == 0xfa then [Start]
    else if b == 0xfb then [Continue]
    else if b == 0xfc then [Stop]
    else if b == 0xfe then [ActiveSensing]
    else if b == 0xff then [Reset]
    else []
  }

  function ControlMessage(channel: byte, controller: byte, value: byte): (c: Call)
    ensures !IsRealtime(c)
  {
    if controller == 0x78 then AllSoundOff(channel)
    else if controller == 0x79 then ResetAllControllers(channel)
    else if controller == 0x7a then LocalControl(channel, value)
    else if controller == 0x7b then AllNotesOff(channel)
    else if controller == 0x7c then OmniModeOff(channel)
    else if controller == 0x7d then OmniModeOn(channel)
    else if controller == 0x7e then MonoModeOn(channel, value)
    else if controller == 0x7f then PolyModeOn(channel)
    else ControlChange(channel, controller, value)
  }

  /** The call for a complete message that is not a real-time message. */
  function Message(status: byte, data: seq<byte>, channels: set<byte>): (calls: seq<Call>)
    requires |data| == ExpectedSize(status)
    ensures forall c :: c in calls ==> !IsRealtime(c)
  {
    var lo := status % 16;
    if 0x80 <= status < 0xf0 && lo !in channels then []
    else if status < 0x80 then []
    else if status < 0x90 then [NoteOff(lo, data[0], data[1])]
    else if status < 0xa0 then [if data[1] != 0 then NoteOn(lo, data[0], data[1]) else NoteOff(lo, data[0], 0)]
    else if status < 0xb0 then [KeyPressure(lo, data[0], data[1])]
    else if status < 0xc0 then [ControlMessage(lo, data[0], data[1])]
    else if status < 0xd0 then [ProgramChange(lo, data[0])]
    else if status < 0xe0 then [ChannelPressure(lo, data[0])]
    else if status < 0xf0 then [PitchBend(lo, data[1] as int * 128 + data[0] as int)]
    else if status == 0xf0 then [SysExByte(data[0])]
    else []
  }

  function Receive(s: State, b: byte, channels: set<byte>): (r: (State, seq<Call>))
    requires WellFormed(s)
    ensures WellFormed(r.0)
    ensures forall c :: c in r.1 ==> (IsRealtime(c) <==> b >= 0xf8)
  {
    if b >= 0xf8 then (s, Realtime(b))
    else if b == 0xf7 then (State(0, []), if s.status == 0xf0 then [SysExEnd] else [])
    else if b == 0xf0 then (State(0xf0, []), [SysExStart])
    else if b >= 0xf4 then (State(0, []), [])
    else if b >= 0x80 then (State(b, []), [])
    else if s.status == 0 then (s, [])
    else
      var data := s.pending + [b];
      if |data| < ExpectedSize(s.status) then (s.(pending := data), [])
      else (State(if s.status > 0xf0 then 0 else s.status, []), Message(s.status, data, channels))
  }

  function ReceiveAll(s: State, bytes: seq<byte>, channels: set<byte>): (r: (State, seq<Call>))
    requires WellFormed(s)
    ensures WellFormed(r.0)
    decreases |bytes|
  {
    if bytes == [] then (s, [])
    else
      var (s', calls) := Receive(s, bytes[0], channels);
      var (s'', rest) := ReceiveAll(s', bytes[1..], channels);
      (s'', calls + rest)
  }

  lemma {:induction false} ReceiveInTwo(s: State, a: seq<byte>, b: seq<byte>, channels: set<byte>)
    requires WellFormed(s)
    ensures var (s', calls) := ReceiveAll(s, a, channels);
            var (s'', rest) := ReceiveAll(s', b, channels);
            ReceiveAll(s, a + b, channels) == (s'', calls + rest)
    decreases |a|
  {
    if a == [] {
      assert a + b == b;
      var last := ReceiveAll(s, b, channels).1;
      assert [] + last == last;
    } else {
      assert (a + b)[0] == a[0] && (a + b)[1..] == a[1..] + b;
      var (s', calls) := Receive(s, a[0], channels);
      ReceiveInTwo(s', a[1..], b, channels);
      var (s1, rest) := ReceiveAll(s', a[1..], channels);
      var (s2, last) := ReceiveAll(s1, b, channels);
      assert calls + (rest + last) == calls + rest + last;
    }
  }

  // ---- Running status ----

  /** A message as sent: with its status byte, or without it while the running status is the same. */
  datatype Sent = Sent(status: byte, data: seq<byte>, running: bool, call: Call)

  predicate IsMessage(m: Sent) {
    && 0x80 <= m.status < 0xf0
    && (forall i :: 0 <= i < |m.data| ==> m.data[i] < 0x80)
    && Says(m.status, m.data, m.call)
  }

  /** The status byte is left out only where the receiver already has it. */
  predicate Legal(messages: seq<Sent>, status: byte) {
    messages == [] ||
    (IsMessage(messages[0]) && (messages[0].running ==> messages[0].status == status) &&
        Legal(messages[1..], messages[0].status))
  }

  function Wire(messages: seq<Sent>): seq<byte> {
    if messages == [] then []
    else (if messages[0].running then [] else [messages[0].status]) + messages[0].data + Wire(messages[1..])
  }

  /** The calls for the messages on the channels that the device listens to. */
  function Calls(messages: seq<Sent>, channels: set<byte>): seq<Call> {
    if messages == [] then []
    else (if messages[0].status % 16 in channels then [messages[0].call] else []) + Calls(messages[1..], channels)
  }

  lemma SaidIsCalled(status: byte, data: seq<byte>, call: Call, channels: set<byte>)
    requires 0x80 <= status < 0xf0 && Says(status, data, call)
    ensures |data| == ExpectedSize(status)
    ensures Message(status, data, channels) == if status % 16 in channels then [call] else []
  {
  }

  lemma ReceiveOne(s: State, b: byte, channels: set<byte>)
    requires WellFormed(s)
    ensures ReceiveAll(s, [b], channels) == Receive(s, b, channels)
  {
    var calls := Receive(s, b, channels).1;
    assert [b][1..] == [] && calls + [] == calls;
  }

  /** The data bytes of one message, from a parser that has its status. */
  lemma DataIsCalled(status: byte, data: seq<byte>, channels: set<byte>)
    requires 0x80 <= status < 0xf0 && |data| == ExpectedSize(status)
    requires forall i :: 0 <= i < |data| ==> data[i] < 0x80
    ensures ReceiveAll(State(status, []), data, channels) == (State(status, []), Message(status, data, channels))
  {
    hide Message;
    var calls := Message(status, data, channels);
    if |data| == 2 {
      assert data[1..] == [data[1]] && [data[0]] + [data[1]] == data;
      assert [] + [data[0]] == [data[0]];
      assert Receive(State(status, []), data[0], channels) == (State(status, [data[0]]), []);
      ReceiveOne(State(status, [data[0]]), data[1], channels);
      assert [] + calls == calls;
    } else {
      assert data == [data[0]] && [] + [data[0]] == data;
      ReceiveOne(State(status, []), data[0], channels);
    }
  }

  lemma StatusStarts(s: State, b: byte, channels: set<byte>)
    requires WellFormed(s) && 0x80 <= b < 0xf0
    ensures ReceiveAll(s, [b], channels) == (State(b, []), [])
  {
    ReceiveOne(s, b, channels);
  }

  lemma DataAndRest(m: Sent, rest: seq<byte>, channels: set<byte>)
    requires IsMessage(m)
    ensures var (s', calls) := ReceiveAll(State(m.status, []), rest, channels);
            ReceiveAll(State(m.status, []), m.data + rest, channels) ==
            (s', (if m.status % 16 in channels then [m.call] else []) + calls)
  {
    SaidIsCalled(m.status, m.data, m.call, channels);
    DataIsCalled(m.status, m.data, channels);
    hide ReceiveAll, Message, Says;
    ReceiveInTwo(State(m.status, []), m.data, rest, channels);
  }

  lemma StatusOf(m: Sent)
    requires IsMessage(m)
    ensures 0x80 <= m.status < 0xf0 && WellFormed(State(m.status, []))
  {
  }

  lemma WireOf(m: Sent, rest: seq<byte>)
    ensures (if m.running then [] else [m.status]) + m.data + rest ==
            if m.running then m.data + rest else [m.status] + (m.data + rest)
  {
  }

  /** Bytes that call nothing only change the state. */
  lemma AfterNothing(s: State, a: seq<byte>, b: seq<byte>, channels: set<byte>)
    requires WellFormed(s) && ReceiveAll(s, a, channels).1 == []
    ensures ReceiveAll(s, a + b, channels) == ReceiveAll(ReceiveAll(s, a, channels).0, b, channels)
  {
    hide *;
    ReceiveInTwo(s, a, b, channels);
    var calls := ReceiveAll(ReceiveAll(s, a, channels).0, b, channels).1;
    assert [] + calls == calls;
  }

  /** One message and whatever follows it. */
  lemma MessageIsCalled(s: State, m: Sent, rest: seq<byte>, channels: set<byte>)
    requires WellFormed(s) && IsMessage(m) && (m.running ==> s == State(m.status, []))
    ensures var bytes := (if m.running then [] else [m.status]) + m.data + rest;
            var (s', calls) := ReceiveAll(State(m.status, []), rest, channels);
            ReceiveAll(s, bytes, channels) == (s', (if m.status % 16 in channels then [m.call] else []) + calls)
  {
    hide *;
    StatusOf(m);
    WireOf(m, rest);
    DataAndRest(m, rest, channels);
    if !m.running {
      StatusStarts(s, m.status, channels);
      AfterNothing(s, [m.status], m.data + rest, channels);
    }
  }

  /** The first message, on the wire and as a call. */
  lemma HeadOf(messages: seq<Sent>, s: State, channels: set<byte>)
    requires WellFormed(s) && Legal(messages, s.status)
    ensures messages == [] ==>
            Wire(messages) == [] && Calls(messages, channels) == [] && ReceiveAll(s, [], channels).1 == []
    ensures messages != [] ==>
              var m, rest := messages[0], messages[1..];
              && IsMessage(m) && (m.running ==> m.status == s.status) && Legal(rest, m.status)
              && WellFormed(State(m.status, []))
              && Wire(messages) == (if m.running then [] else [m.status]) + m.data + Wire(rest)
              && Calls(messages, channels) ==
                 (if m.status % 16 in channels then [m.call] else []) + Calls(rest, channels)
              && (rest == [] ==>
                 Wire(rest) == [] && ReceiveAll(State(m.status, []), [], channels).0 == State(m.status, []))
  {
    hide Says, Receive;
    if messages != [] {
      var m := messages[0];
      SaidIsCalled(m.status, m.data, m.call, channels);
    }
  }

  /** Any list of channel messages, with any legal use of running status, yields exactly its calls. */
  lemma {:induction false} MessagesAreCalled(s: State, messages: seq<Sent>, channels: set<byte>)
    requires WellFormed(s) && Legal(messages, s.status)
    requires messages != [] && messages[0].running ==> s.pending == []
    ensures ReceiveAll(s, Wire(messages), channels).1 == Calls(messages, channels)
    ensures messages != [] ==> ReceiveAll(s, Wire(messages), channels).0 == State(messages[|messages| - 1].status, [])
    decreases |messages|
  {
    hide *;
    HeadOf(messages, s, channels);
    if messages != [] {
      var m := messages[0];
      MessageIsCalled(s, m, Wire(messages[1..]), channels);
      MessagesAreCalled(State(m.status, []), messages[1..], channels);
    }
  }

  // ---- Real-time bytes ----

  function WithoutRealtime(bytes: seq<byte>): (r: seq<byte>)
    ensures forall b :: b in r ==> b < 0xf8
  {
    if bytes == [] then [] else (if bytes[0] >= 0xf8 then [] else [bytes[0]]) + WithoutRealtime(bytes[1..])
  }

  /** The two real-time bytes that the standard leaves undefined. */
  predicate IsUndefined(b: byte) {
    b == 0xf9 || b == 0xfd
  }

  /** The calls are what the real-time bytes say, in their order. */
  ghost predicate SaidInOrder(bytes: seq<byte>, calls: seq<Call>)
    decreases |bytes|
  {
    if bytes == [] then calls == []
    else if bytes[0] < 0xf8 || IsUndefined(bytes[0]) then SaidInOrder(bytes[1..], calls)
    else calls != [] && Says(bytes[0], [], calls[0]) && SaidInOrder(bytes[1..], calls[1..])
  }

  /** A real-time byte makes the one call that it says, if it says any. */
  lemma RealtimeIsSaid(b: byte)
    requires b >= 0xf8
    ensures if IsUndefined(b) then Realtime(b) == [] else |Realtime(b)| == 1 && Says(b, [], Realtime(b)[0])
    ensures forall call :: Says(b, [], call) ==> Realtime(b) == [call]
  {
  }

  lemma SaidAreCalled(status: byte, data: seq<byte>, channels: set<byte>)
    ensures 0x80 <= status < 0xf0 && status % 16 in channels ==>
              forall call :: Says(status, data, call) ==>
                |data| == ExpectedSize(status) && Message(status, data, channels) == [call]
    ensures status >= 0xf8 ==>
              && (forall call :: Says(status, [], call) ==> Realtime(status) == [call])
              && (IsUndefined(status) ==> Realtime(status) == [])
  {
    if 0x80 <= status < 0xf0 && status % 16 in channels {
      forall call | Says(status, data, call)
        ensures |data| == ExpectedSize(status) && Message(status, data, channels) == [call]
      {
        SaidIsCalled(status, data, call, channels);
      }
    } else if status >= 0xf8 {
      RealtimeIsSaid(status);
    }
    hide Says, Realtime, Message;
  }

  lemma SaidFirst(b: byte, bytes: seq<byte>, calls: seq<Call>)
    requires SaidInOrder(bytes, calls)
    ensures SaidInOrder([b] + bytes, (if b >= 0xf8 then Realtime(b) else []) + calls)
  {
    hide Realtime, Says;
    assert ([b] + bytes)[1..] == bytes;
    if b < 0xf8 {
      assert [] + calls == calls;
    } else {
      RealtimeIsSaid(b);
      if IsUndefined(b) {
        assert [] + calls == calls;
      } else {
        assert (Realtime(b) + calls)[1..] == calls;
      }
    }
  }

  /** The calls that are (or are not) real-time calls, in order. */
  function Select(calls: seq<Call>, realtime: bool): seq<Call> {
    if calls == [] then []
    else (if IsRealtime(calls[0]) == realtime then [calls[0]] else []) + Select(calls[1..], realtime)
  }

  lemma {:induction false} SelectBoth(a: seq<Call>, b: seq<Call>, realtime: bool)
    ensures Select(a + b, realtime) == Select(a, realtime) + Select(b, realtime)
  {
    if a == [] {
      assert a + b == b;
    } else {
      assert (a + b)[0] == a[0] && (a + b)[1..] == a[1..] + b;
      SelectBoth(a[1..], b, realtime);
      var first := if IsRealtime(a[0]) == realtime then [a[0]] else [];
      assert first + (Select(a[1..], realtime) + Select(b, realtime)) ==
             first + Select(a[1..], realtime) + Select(b, realtime);
    }
  }

  lemma {:induction false} SelectAllOrNothing(calls: seq<Call>, kind: bool, realtime: bool)
    requires forall c :: c in calls ==> IsRealtime(c) == kind
    ensures Select(calls, realtime) == if kind == realtime then calls else []
  {
    if calls != [] {
      SelectAllOrNothing(calls[1..], kind, realtime);
    }
  }

  /**
   Real-time bytes, wherever they are inserted, change neither the other calls nor the state, and are all
   passed on.
   */
  lemma {:induction false} RealtimeIsTransparent(s: State, bytes: seq<byte>, channels: set<byte>)
    requires WellFormed(s)
    ensures var (s', calls) := ReceiveAll(s, bytes, channels);
            && ReceiveAll(s, WithoutRealtime(bytes), channels) == (s', Select(calls, false))
            && SaidInOrder(bytes, Select(calls, true))
    decreases |bytes|
  {
    hide Receive, Realtime, IsRealtime, Says;
    if bytes != [] {
      var b := bytes[0];
      var (s', calls) := Receive(s, b, channels);
      var rest := ReceiveAll(s', bytes[1..], channels).1;
      RealtimeIsTransparent(s', bytes[1..], channels);
      SelectBoth(calls, rest, false);
      SelectBoth(calls, rest, true);
      SelectAllOrNothing(calls, b >= 0xf8, false);
      SelectAllOrNothing(calls, b >= 0xf8, true);
      if b < 0xf8 {
        assert WithoutRealtime(bytes) == [b] + WithoutRealtime(bytes[1..]);
        ReceiveOne(s, b, channels);
        ReceiveInTwo(s, [b], WithoutRealtime(bytes[1..]), channels);
        assert Select(calls, true) + Select(rest, true) == Select(rest, true);
        assert [] + Select(rest, true) == Select(rest, true);
      } else {
        RealtimeStep(s, b, channels);
        assert WithoutRealtime(bytes) == WithoutRealtime(bytes[1..]);
        assert Select(calls, false) + Select(rest, false) == Select(rest, false);
      }
      SaidFirst(b, bytes[1..], Select(rest, true));
      assert [b] + bytes[1..] == bytes;
    }
  }

  lemma RealtimeStep(s: State, b: byte, channels: set<byte>)
    requires WellFormed(s) && b >= 0xf8
    ensures Receive(s, b, channels) == (s, Realtime(b))
  {
  }

  // ---- System exclusive messages ----

  function SysExBytes(body: seq<byte>): (calls: seq<Call>)
    ensures |calls| == |body|
  {
    seq(|body|, i requires 0 <= i < |body| => SysExByte(body[i]))
  }

  lemma {:induction false} BodyIsPassedOn(body: seq<byte>, channels: set<byte>)
    requires forall i :: 0 <= i < |body| ==> body[i] < 0x80
    ensures ReceiveAll(State(0xf0, []), body, channels) == (State(0xf0, []), SysExBytes(body))
  {
    if body != [] {
      assert [] + [body[0]] == [body[0]];
      BodyIsPassedOn(body[1..], channels);
      assert SysExBytes(body) == [SysExByte(body[0])] + SysExBytes(body[1..]);
    }
  }

  /** A system exclusive message arrives whole, whatever was going on before. */
  lemma SysExIsPassedOn(s: State, body: seq<byte>, channels: set<byte>)
    requires WellFormed(s) && forall i :: 0 <= i < |body| ==> body[i] < 0x80
    ensures ReceiveAll(s, [0xf0] + body + [0xf7], channels) ==
            (State(0, []), [SysExStart] + SysExBytes(body) + [SysExEnd])
  {
    var inside := State(0xf0, []);
    ReceiveOne(s, 0xf0, channels);
    BodyIsPassedOn(body, channels);
    ReceiveOne(inside, 0xf7, channels);
    ReceiveInTwo(s, [0xf0], body, channels);
    ReceiveInTwo(s, [0xf0] + body, [0xf7], channels);
  }

  // ---- The parser ----

  class Parser {
    /** The channels that `CheckChannel` accepts. */
    const channels: set<byte>
    var runningStatus: byte
    const data: array<byte>
    var dataSize: byte
    var expectedDataSize: byte
    /** The calls made to the device. */
    var calls: seq<Call>

    ghost predicate Valid()
      reads this, data
    {
      && data.Length == 3
      && dataSize as int <= 2 && expectedDataSize as int == ExpectedSize(runningStatus)
      && WellFormed(Abs())
    }

    ghost function Abs(): State
      reads this, data
      requires data.Length == 3 && dataSize as int <= 2
    {
      State(runningStatus, data[..dataSize])
    }

    constructor (channels: set<byte>)
      ensures Valid() && fresh(data) && Abs() == State(0, []) && calls == [] && this.channels == channels
    {
      this.channels := channels;
      runningStatus, dataSize, expectedDataSize, calls := 0, 0, 0, [];
      data := new byte[3];
    }

    /** The calls for a message whose status is at hand; a message without one makes none. */
    method MessageReceived(status: byte)
      requires data.Length == 3
      modifies this`calls
      ensures status >= 0xf8 ==> calls == old(calls) + Realtime(status)
      ensures status < 0xf8 ==> calls == old(calls) + Message(status, data[..ExpectedSize(status)], channels)
      ensures 0x80 <= status < 0xf0 && status % 16 in channels ==>
                forall call :: Says(status, data[..ExpectedSize(status)], call) ==> calls == old(calls) + [call]
      ensures 0xf8 <= status ==>
                && (forall call :: Says(status, [], call) ==> calls == old(calls) + [call])
                && (IsUndefined(status) ==> calls == old(calls))
    {
      hide Says;
      SaidAreCalled(status, data[..ExpectedSize(status)], channels);
      var hi, lo := status - status % 16, status % 16;
      if hi != 0xf0 && lo !in channels {
        return;
      }
      if hi == 0x80 {
        calls := calls + [NoteOff(lo, data[0], data[1])];
      } else if hi == 0x90 {
        calls := calls + [if data[1] != 0 then NoteOn(lo, data[0], data[1]) else NoteOff(lo, data[0], 0)];
      } else if hi == 0xa0 {
        calls := calls + [KeyPressure(lo, data[0], data[1])];
      } else if hi == 0xb0 {
        ControlReceived(lo);
      } else if hi == 0xc0 {
        calls := calls + [ProgramChange(lo, data[0])];
      } else if hi == 0xd0 {
        calls := calls + [ChannelPressure(lo, data[0])];
      } else if hi == 0xe0 {
        calls := calls + [PitchBend(lo, data[1] as int * 128 + data[0] as int)];
      } else if hi == 0xf0 {
        SystemReceived(lo);
      }
    }

    method ControlReceived(channel: byte)
      requires data.Length == 3
      modifies this`calls
      ensures calls == old(calls) + [ControlMessage(channel, data[0], data[1])]
    {
      if data[0] == 0x78 {
        calls := calls + [AllSoundOff(channel)];
      } else if data[0] == 0x79 {
        calls := calls + [ResetAllControllers(channel)];
      } else if data[0] == 0x7a {
        calls := calls + [LocalControl(channel, data[1])];
      } else if data[0] == 0x7b {
        calls := calls + [AllNotesOff(channel)];
      } else if data[0] == 0x7c {
        calls := calls + [OmniModeOff(channel)];
      } else if data[0] == 0x7d {
        calls := calls + [OmniModeOn(channel)];
      } else if data[0] == 0x7e {
        calls := calls + [MonoModeOn(channel, data[1])];
      } else if data[0] == 0x7f {
        calls := calls + [PolyModeOn(channel)];
      } else {
        calls := calls + [ControlChange(channel, data[0], data[1])];
      }
    }

    method SystemReceived(lo: byte)
      requires data.Length == 3 && lo < 16
      modifies this`calls
      ensures lo >= 8 ==> calls == old(calls) + Realtime(0xf0 + lo)
      ensures lo >= 8 ==> forall call :: Says(0xf0 + lo, [], call) ==> calls == old(calls) + [call]
      ensures lo < 8 ==> calls == old(calls) + if lo == 0 then [SysExByte(data[0])] else []
    {
      hide Says;
      if lo >= 8 {
        RealtimeIsSaid(0xf0 + lo);
      }
      if lo == 0 {
        calls := calls + [SysExByte(data[0])];
      } else if lo == 8 {
        calls := calls + [Clock];
      } else if lo == 10 {
        calls := calls + [Start];
      } else if lo == 11 {
        calls := calls + [Continue];
      } else if lo == 12 {
        calls := calls + [Stop];
      } else if lo == 14 {
        calls := calls + [ActiveSensing];
      } else if lo == 15 {
        calls := calls + [Reset];
      }
    }

    method StatusReceived(b: byte)
      requires Valid() && 0x80 <= b < 0xf8
      modifies this`runningStatus, this`dataSize, this`expectedDataSize, this`calls
      ensures dataSize == 0 && expectedDataSize as int == ExpectedSize(b)
      ensures runningStatus == if b == 0xf7 then 0 else b
      ensures calls == old(calls) +
                if b == 0xf0 then [SysExStart]
                else if b == 0xf7 && old(runningStatus) == 0xf0 then [SysExEnd]
                else []
    {
      var hi, lo := b - b % 16, b % 16;
      dataSize := 0;
      expectedDataSize := 1;
      if hi == 0x80 || hi == 0x90 || hi == 0xa0 || hi == 0xb0 || hi == 0xe0 {
        expectedDataSize := 2;
      } else if hi == 0xf0 {
        if 0 < lo < 3 {
          expectedDataSize := 2;
        } else if lo >= 4 {
          expectedDataSize := 0;
        }
      }
      if b == 0xf7 {
        if runningStatus == 0xf0 {
          calls := calls + [SysExEnd];
        }
        runningStatus := 0;
      } else if b == 0xf0 {
        runningStatus := 0xf0;
        calls := calls + [SysExStart];
      } else {
        runningStatus := b;
      }
    }

    method PushByte(b: byte)
      requires Valid()
      modifies this, data
      ensures Valid()
      ensures var (s, made) := Receive(old(Abs()), b, channels); Abs() == s && calls == old(calls) + made
      ensures b >= 0xf8 ==>
                && Abs() == old(Abs())
                && (forall call :: Says(b, [], call) ==> calls == old(calls) + [call])
                && (IsUndefined(b) ==> calls == old(calls))
    {
      hide Says, Realtime, IsUndefined;
      if b >= 0xf8 {
        MessageReceived(b);
      } else {
        if b >= 0x80 {
          StatusReceived(b);
        } else {
          data[dataSize] := b;
          dataSize := dataSize + 1;
        }
        if dataSize >= expectedDataSize {
          MessageReceived(runningStatus);
          dataSize := 0;
          if runningStatus > 0xf0 {
            expectedDataSize := 0;
            runningStatus := 0;
          }
        }
      }
    }
  }
}
