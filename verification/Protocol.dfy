/**
 The byte protocol between the controller and a voice card: the bytes of every command, and the
 card's parser, which performs the commands on its own copy of the patch.
 */
module Protocol {
  import opened Bytes

  const PATCH_SIZE := 112
  /** The bytes of the part's settings that a card keeps a copy of. */
  const CARD_PART_SIZE := 7
  const MOD_SRC_LFO_1 := 3
  const MOD_SRC_COUNT := 31
  const NUM_LFOS := 3

  // ---- The controller's side ----

  datatype Command =
    | Trigger(note: nat, velocity: byte, legato: byte)
    | WritePatch(address: byte, value: byte)
    | WritePart(address: byte, value: byte)
    | WriteModulation(address: byte, value: byte)
    | WriteLfo(index: byte, value: byte)
    | Release
    | Kill
    | RetriggerEnvelope(index: byte)
    | ResetAllControllers
    | Reset
    | Sync

  predicate Sendable(c: Command) {
    match c
    case Trigger(note, velocity, legato) => note < 0x10000 && legato <= 1
    case WriteLfo(index, _) => index as int < NUM_LFOS
    case RetriggerEnvelope(index) => index as int < NUM_LFOS
    case _ => true
  }

  function Encode(c: Command): seq<byte>
    requires Sendable(c)
  {
    match c
    case Trigger(note, velocity, legato) =>
      [0x10 + legato, (note / 256) as byte, (note % 256) as byte, (2 * velocity as int % 256) as byte]
    case WritePatch(address, value) => [0x20, address, value]
    case WritePart(address, value) => [0x30, address, value]
    case WriteModulation(address, value) => [0x40, address, value]
    case WriteLfo(index, value) => [0x50 + index, value]
    case Release => [0x60]
    case Kill => [0x70]
    case RetriggerEnvelope(index) => [0x80 + index]
    case ResetAllControllers => [0xf8]
    case Reset => [0xf9]
    case Sync => [0xff]
  }

  // ---- The card's side ----

  /** What the card's sound engine is told. */
  datatype Action =
    | NoteOn(note: nat, velocity: byte, legato: bool)
    | SetSource(source: byte, value: byte)
    | NoteReleased
    | NoteKilled
    | EnvelopeTriggered(index: byte)
    | ControllersReset
    | Reinitialized

  /**
   `Arguments`: so many bytes are still missing.  `AwaitingSize` and `InBlock`: the card has stopped
   its timer and reads the link directly.  `Derailed`: a byte took a path the card was not reading.
   */
  datatype Parser =
    | Expecting
    | Arguments(command: byte, missing: nat, arguments: seq<byte>)
    | AwaitingSize
    | InBlock(size: byte, taken: byte)
    | Derailed

  /** `factory` is the patch a card starts with. */
  datatype Card = Card(parser: Parser, patch: seq<byte>, part: seq<byte>, factory: seq<byte>, actions: seq<Action>)

  ghost predicate WellFormed(card: Card) {
    && |card.patch| == PATCH_SIZE == |card.factory| && |card.part| == CARD_PART_SIZE
    && match card.parser
       case Arguments(command, missing, arguments) =>
         0x10 <= command < 0x60 && 0 < missing && missing + |arguments| == ArgumentCount(command)
       case InBlock(size, taken) => taken < size
       case _ => true
  }

  /** A byte comes through the interrupt-filled buffer, or straight from the link. */
  datatype Symbol = Buffered(value: byte) | Direct(value: byte)

  /** How many bytes follow a command byte. */
  function ArgumentCount(command: byte): nat {
    if 0x10 <= command < 0x20 then 3
    else if 0x20 <= command < 0x50 then 2
    else if 0x50 <= command < 0x60 then 1
    else 0
  }

  /** An address outside the copy is not part of the replica. */
  function SetData(data: seq<byte>, address: byte, value: byte): (r: seq<byte>)
    ensures |r| == |data|
  {
    if address as int < |data| then data[address := value] else data
  }

  function DoLongCommand(card: Card, command: byte, arguments: seq<byte>): Card
    requires 0x10 <= command < 0x60 && |arguments| == ArgumentCount(command)
  {
    if command < 0x20 then
      Act(card, NoteOn(arguments[0] as int * 256 + arguments[1] as int, arguments[2], command % 2 == 1))
    else if command < 0x30 then
      card.(patch := SetData(card.patch, arguments[0], arguments[1]))
    else if command < 0x40 then
      card.(part := SetData(card.part, arguments[0], arguments[1]))
    else if command < 0x50 then
      if arguments[0] as int < MOD_SRC_COUNT then Act(card, SetSource(arguments[0], arguments[1])) else card
    else
      if (command % 16) as int < NUM_LFOS then Act(card, SetSource(MOD_SRC_LFO_1 + command % 16, arguments[0]))
      else card
  }

  function Act(card: Card, action: Action): Card {
    card.(actions := card.actions + [action])
  }

  function DoShortCommand(card: Card, command: byte): Card {
    if command == 0x00 then card.(parser := AwaitingSize)
    else if command == 0x60 then Act(card, NoteReleased)
    else if command == 0x70 then Act(card, NoteKilled)
    else if 0x80 <= command < 0x83 then Act(card, EnvelopeTriggered(command % 16))
    else if command == 0xf8 then Act(card, ControllersReset)
    else if command == 0xf9 then Act(Reinitialize(card), Reinitialized)
    else card
  }

  function Reinitialize(card: Card): Card {
    card.(patch := card.factory, part := SetData(SetData(SetData(card.part, 0, 127), 6, 0), 5, 0))
  }

  /** One byte taken by the main loop's parser or by its block transfer. */
  function Feed(card: Card, symbol: Symbol): (r: Card)
    requires WellFormed(card)
    ensures WellFormed(r)
  {
    match card.parser
    case Expecting =>
      if symbol.Direct? then card.(parser := Derailed)
      else if ArgumentCount(symbol.value) > 0 then
        card.(parser := Arguments(symbol.value, ArgumentCount(symbol.value), []))
      else DoShortCommand(card, symbol.value)
    case Arguments(command, missing, arguments) =>
      if symbol.Direct? then card.(parser := Derailed)
      else if missing > 1 then card.(parser := Arguments(command, missing - 1, arguments + [symbol.value]))
      else DoLongCommand(card, command, arguments + [symbol.value]).(parser := Expecting)
    case AwaitingSize =>
      if symbol.Buffered? then card.(parser := Derailed)
      else card.(parser := if symbol.value == 0 then Expecting else InBlock(symbol.value, 0))
    case InBlock(size, taken) =>
      if symbol.Buffered? then card.(parser := Derailed)
      else
        card.(patch := SetData(card.patch, taken, symbol.value),
              parser := if taken + 1 == size then Expecting else InBlock(size, taken + 1))
    case Derailed => card
  }

  function FeedAll(card: Card, symbols: seq<Symbol>): (r: Card)
    requires WellFormed(card)
    ensures WellFormed(r)
    decreases |symbols|
  {
    if symbols == [] then card else FeedAll(Feed(card, symbols[0]), symbols[1..])
  }

  lemma {:induction false} FeedInTwo(card: Card, a: seq<Symbol>, b: seq<Symbol>)
    requires WellFormed(card)
    ensures FeedAll(card, a + b) == FeedAll(FeedAll(card, a), b)
    decreases |a|
  {
    if a == [] {
      assert a + b == b;
    } else {
      assert (a + b)[0] == a[0] && (a + b)[1..] == a[1..] + b;
      FeedInTwo(Feed(card, a[0]), a[1..], b);
    }
  }

  function Buffer(bytes: seq<byte>): (symbols: seq<Symbol>)
    ensures |symbols| == |bytes|
    ensures forall i {:trigger symbols[i]} :: 0 <= i < |bytes| ==> symbols[i] == Buffered(bytes[i])
  {
    seq(|bytes|, i requires 0 <= i < |bytes| => Buffered(bytes[i]))
  }

  // ---- Every command arrives as it was meant ----

  /** What a command is for. */
  function Perform(card: Card, c: Command): (r: Card)
    requires Sendable(c)
    ensures WellFormed(card) ==> WellFormed(r)
    ensures r.parser == card.parser
  {
    match c
    case Trigger(note, velocity, legato) => Act(card, NoteOn(note, (2 * velocity as int % 256) as byte, legato == 1))
    case WritePatch(address, value) => card.(patch := SetData(card.patch, address, value))
    case WritePart(address, value) => card.(part := SetData(card.part, address, value))
    case WriteModulation(address, value) =>
      if address as int < MOD_SRC_COUNT then Act(card, SetSource(address, value)) else card
    case WriteLfo(index, value) => Act(card, SetSource(MOD_SRC_LFO_1 + index, value))
    case Release => Act(card, NoteReleased)
    case Kill => Act(card, NoteKilled)
    case RetriggerEnvelope(index) => Act(card, EnvelopeTriggered(index))
    case ResetAllControllers => Act(card, ControllersReset)
    case Reset => Act(Reinitialize(card), Reinitialized)
    case Sync => card
  }

  predicate IsLong(c: Command) {
    c.Trigger? || c.WritePatch? || c.WritePart? || c.WriteModulation? || c.WriteLfo?
  }

  lemma LongCommandMeaning(card: Card, c: Command)
    requires Sendable(c) && IsLong(c)
    ensures 0x10 <= Encode(c)[0] < 0x60 && |Encode(c)| == 1 + ArgumentCount(Encode(c)[0])
    ensures DoLongCommand(card, Encode(c)[0], Encode(c)[1..]) == Perform(card, c)
  {
  }

  lemma ShortCommandMeaning(card: Card, c: Command)
    requires WellFormed(card) && card.parser == Expecting && Sendable(c) && !IsLong(c)
    ensures |Encode(c)| == 1 && Feed(card, Buffered(Encode(c)[0])) == Perform(card, c)
  {
  }

  lemma BufferHead(bytes: seq<byte>)
    requires bytes != []
    ensures Buffer(bytes) == [Buffered(bytes[0])] + Buffer(bytes[1..])
  {
  }

  lemma CommandIsPerformed(card: Card, c: Command)
    requires WellFormed(card) && card.parser == Expecting && Sendable(c)
    ensures FeedAll(card, Buffer(Encode(c))) == Perform(card, c)
  {
    var bytes := Encode(c);
    if IsLong(c) {
      LongCommandMeaning(card, c);
      ArgumentsCollected(card, bytes[0], bytes[1..]);
    } else {
      ShortCommandMeaning(card, c);
      assert Buffer(bytes[1..]) == [];
      FeedOne(card, Buffered(bytes[0]));
    }
    BufferHead(bytes);
  }

  lemma FeedOne(card: Card, symbol: Symbol)
    requires WellFormed(card)
    ensures FeedAll(card, [symbol]) == Feed(card, symbol)
  {
    assert [symbol][1..] == [];
  }

  lemma LongCommandIgnoresParser(card: Card, parser: Parser, command: byte, arguments: seq<byte>)
    requires 0x10 <= command < 0x60 && |arguments| == ArgumentCount(command) && card.parser == Expecting
    ensures DoLongCommand(card.(parser := parser), command, arguments).(parser := Expecting) ==
            DoLongCommand(card, command, arguments)
  {
  }

  /** A command byte and its arguments. */
  lemma ArgumentsCollected(card: Card, command: byte, arguments: seq<byte>)
    requires WellFormed(card) && card.parser == Expecting
    requires 0x10 <= command < 0x60 && |arguments| == ArgumentCount(command)
    ensures FeedAll(card, [Buffered(command)] + Buffer(arguments)) == DoLongCommand(card, command, arguments)
  {
    hide Buffer, DoShortCommand, DoLongCommand;
    var first := Feed(card, Buffered(command));
    assert ([Buffered(command)] + Buffer(arguments))[1..] == Buffer(arguments);
    ArgumentsCompleted(first, arguments);
    LongCommandIgnoresParser(card, first.parser, command, arguments);
    assert [] + arguments == arguments;
  }

  lemma {:induction false} ArgumentsCompleted(card: Card, rest: seq<byte>)
    requires WellFormed(card) && card.parser.Arguments? && |rest| == card.parser.missing
    ensures FeedAll(card, Buffer(rest)) ==
            DoLongCommand(card, card.parser.command, card.parser.arguments + rest).(parser := Expecting)
    decreases |rest|
  {
    var next := Feed(card, Buffer(rest)[0]);
    assert Buffer(rest)[1..] == Buffer(rest[1..]);
    if |rest| > 1 {
      ArgumentsCompleted(next, rest[1..]);
      assert card.parser.arguments + [rest[0]] + rest[1..] == card.parser.arguments + rest;
    } else {
      assert rest == [rest[0]];
    }
  }

  function EncodeAll(commands: seq<Command>): seq<byte>
    requires forall i :: 0 <= i < |commands| ==> Sendable(commands[i])
  {
    if commands == [] then [] else Encode(commands[0]) + EncodeAll(commands[1..])
  }

  function PerformAll(card: Card, commands: seq<Command>): Card
    requires forall i :: 0 <= i < |commands| ==> Sendable(commands[i])
    decreases |commands|
  {
    if commands == [] then card else PerformAll(Perform(card, commands[0]), commands[1..])
  }

  /** Any stream of commands is cut back into the same commands, and ends between two of them. */
  lemma {:induction false} StreamIsPerformed(card: Card, commands: seq<Command>)
    requires WellFormed(card) && card.parser == Expecting
    requires forall i :: 0 <= i < |commands| ==> Sendable(commands[i])
    ensures FeedAll(card, Buffer(EncodeAll(commands))) == PerformAll(card, commands)
    ensures PerformAll(card, commands).parser == Expecting
    decreases |commands|
  {
    if commands != [] {
      var head, tail := Encode(commands[0]), EncodeAll(commands[1..]);
      assert Buffer(head + tail) == Buffer(head) + Buffer(tail);
      FeedInTwo(card, Buffer(head), Buffer(tail));
      CommandIsPerformed(card, commands[0]);
      StreamIsPerformed(Perform(card, commands[0]), commands[1..]);
    }
  }

  /** Four sync bytes end any interrupted command; only a card in a block transfer is beyond their reach. */
  lemma SyncRecovers(card: Card)
    requires WellFormed(card)
    ensures FeedAll(card, Buffer([0xff, 0xff, 0xff, 0xff])).parser == Expecting <==>
            card.parser.Expecting? || card.parser.Arguments?
  {
    var s := Buffered(0xff);
    assert Buffer([0xff, 0xff, 0xff, 0xff]) == [s, s, s, s];
    assert [s, s, s, s][1..] == [s, s, s] && [s, s, s][1..] == [s, s] && [s, s][1..] == [s];
    FeedOne(Feed(Feed(Feed(card, s), s), s), s);
  }

  // ---- Block transfers ----

  function Directly(bytes: seq<byte>): (symbols: seq<Symbol>)
    ensures |symbols| == |bytes|
    ensures forall i {:trigger symbols[i]} :: 0 <= i < |bytes| ==> symbols[i] == Direct(bytes[i])
  {
    seq(|bytes|, i requires 0 <= i < |bytes| => Direct(bytes[i]))
  }

  lemma {:induction false} BlockTaken(card: Card, data: seq<byte>, taken: nat)
    requires WellFormed(card) && taken < |data| == PATCH_SIZE
    requires card.parser == InBlock(PATCH_SIZE, taken) && card.patch[..taken] == data[..taken]
    ensures FeedAll(card, Directly(data[taken..])) == card.(patch := data, parser := Expecting)
    decreases |data| - taken
  {
    var symbols := Directly(data[taken..]);
    var next := Feed(card, symbols[0]);
    assert symbols[1..] == Directly(data[taken + 1..]);
    assert next.patch[..taken + 1] == data[..taken + 1];
    if taken + 1 < |data| {
      BlockTaken(next, data, taken + 1);
    } else {
      assert next.patch == data;
      assert symbols[1..] == [];
    }
  }

  /** The command byte through the queue, then size and data over the idle link, replace the whole patch. */
  lemma BlockReplacesPatch(card: Card, data: seq<byte>)
    requires WellFormed(card) && card.parser == Expecting && |data| == PATCH_SIZE
    ensures FeedAll(card, [Buffered(0x00)] + Directly([PATCH_SIZE as byte] + data)) == card.(patch := data)
  {
    var block := Directly([PATCH_SIZE as byte] + data);
    var all := [Buffered(0x00)] + block;
    assert all[1..] == block;
    assert block[1..] == Directly(data[0..]);
    var ready := Feed(Feed(card, all[0]), block[0]);
    BlockTaken(ready, data, 0);
  }
}
