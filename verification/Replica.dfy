/** The voice cards' copies of the patches, over every interleaving of controller, interrupts and cards. */
module Replica {
  import opened Bytes
  import opened Protocol
  import opened CardTransmitter
  import Ownership

  // The link loses nothing, a card's backlog stays below 255 bytes, and a card whose bulk command has
  // been queued reaches its receive loop before the controller writes the block.

  const PART_SIZE := 196
  const NUM_PARTS := 6
  /** The address of the polyphony mode. */
  const MODE_ADDRESS := 127

  /** A part's patch and settings as one flat array, the cards it owns, and the mode its allocators are set up for. */
  datatype Part = Part(bytes: seq<byte>, cards: seq<byte>, mode: byte)

  /** What the main loop has still to write: through a queue, or over the idle link. */
  datatype Item = Queued(card: byte, value: byte) | Linked(card: byte, value: byte)

  datatype System = System(
    parts: seq<Part>, todo: seq<Item>, even: seq<Word>, odd: seq<Word>, flop: bool, backlog: seq<seq<byte>>,
    cards: seq<Card>)

  // ---- The items of the main loop's operations ----

  function QueueBytes(card: byte, bytes: seq<byte>): (items: seq<Item>)
    ensures |items| == |bytes|
  {
    seq(|bytes|, i requires 0 <= i < |bytes| => Queued(card, bytes[i]))
  }

  function LinkBytes(card: byte, bytes: seq<byte>): (items: seq<Item>)
    ensures |items| == |bytes|
  {
    seq(|bytes|, i requires 0 <= i < |bytes| => Linked(card, bytes[i]))
  }

  function ToAll(cards: seq<byte>, bytes: seq<byte>): seq<Item> {
    if cards == [] then [] else QueueBytes(cards[0], bytes) + ToAll(cards[1..], bytes)
  }

  function BlockToAll(cards: seq<byte>, patch: seq<byte>): seq<Item>
    requires |patch| == PATCH_SIZE
  {
    if cards == [] then []
    else LinkBytes(cards[0], [PATCH_SIZE as byte] + patch) + BlockToAll(cards[1..], patch)
  }

  /** `TouchPatch`: announce a block to every card, then write the blocks. */
  function TouchPatch(cards: seq<byte>, patch: seq<byte>): seq<Item>
    requires |patch| == PATCH_SIZE
  {
    ToAll(cards, [0x00]) + BlockToAll(cards, patch)
  }

  /** The settings that `Touch` writes, from one address on. */
  function TouchFrom(cards: seq<byte>, settings: seq<byte>, address: nat): seq<Item>
    requires |settings| == CARD_PART_SIZE && address <= CARD_PART_SIZE
    decreases CARD_PART_SIZE - address
  {
    if address == CARD_PART_SIZE then []
    else ToAll(cards, Encode(WritePart(address as byte, settings[address]))) + TouchFrom(cards, settings, address + 1)
  }

  function PatchOf(p: Part): (r: seq<byte>)
    requires |p.bytes| == PART_SIZE
    ensures |r| == PATCH_SIZE
  {
    p.bytes[..PATCH_SIZE]
  }

  function SettingsOf(p: Part): (r: seq<byte>)
    requires |p.bytes| == PART_SIZE
    ensures |r| == CARD_PART_SIZE
  {
    p.bytes[PATCH_SIZE..PATCH_SIZE + CARD_PART_SIZE]
  }

  /** A changed mode silences the part before its allocators are set up again. */
  function ModeItems(p: Part): seq<Item>
    requires |p.bytes| == PART_SIZE
  {
    if p.bytes[MODE_ADDRESS] != p.mode then ToAll(p.cards, Encode(Kill)) else []
  }

  /** `AssignVoices` for one part. */
  function Assign(p: Part, cards: seq<byte>): Part
    requires |p.bytes| == PART_SIZE
  {
    Part(p.bytes, cards, p.bytes[MODE_ADDRESS])
  }

  function AssignItems(p: Part, cards: seq<byte>): seq<Item>
    requires |p.bytes| == PART_SIZE
  {
    ToAll(p.cards, Encode(Kill)) + TouchPatch(cards, PatchOf(p)) + TouchFrom(cards, SettingsOf(p), 0)
  }

  function AssignAll(parts: seq<Part>, masks: seq<byte>): (owners: seq<Part>)
    requires |parts| == |masks| && forall i :: 0 <= i < |parts| ==> |parts[i].bytes| == PART_SIZE
    ensures |owners| == |parts|
    ensures forall i :: 0 <= i < |owners| ==> |owners[i].bytes| == PART_SIZE
  {
    seq(|parts|, i requires 0 <= i < |parts| => Assign(parts[i], Ownership.CardsOf(masks[i])))
  }

  /** `AssignVoicesToParts`, from one part on. */
  function AssignAllItems(parts: seq<Part>, masks: seq<byte>, from: nat): seq<Item>
    requires |parts| == |masks| && from <= |parts| && forall i :: 0 <= i < |parts| ==> |parts[i].bytes| == PART_SIZE
    decreases |parts| - from
  {
    if from == |parts| then []
    else AssignItems(parts[from], Ownership.CardsOf(masks[from])) + AssignAllItems(parts, masks, from + 1)
  }

  /** Commands that leave the card's copies alone. */
  predicate IsPerformance(c: Command) {
    Sendable(c) && !c.WritePatch? && !c.WritePart? && !c.Reset?
  }

  datatype Operation =
    | SetValue(part: nat, address: byte, value: byte)
    | LoadPatch(part: nat, patch: seq<byte>)
    | LoadSettings(part: nat, settings: seq<byte>)
    | AssignVoices(masks: seq<byte>)
    | Play(card: byte, command: Command)

  ghost predicate Allowed(s: System, op: Operation) {
    match op
    case SetValue(part, address, _) => part < |s.parts| && address as int < PART_SIZE
    case LoadPatch(part, patch) => part < |s.parts| && |patch| == PATCH_SIZE
    case LoadSettings(part, settings) => part < |s.parts| && |settings| == PART_SIZE - PATCH_SIZE
    case AssignVoices(masks) => |masks| == |s.parts| && Ownership.ConflictFree(masks)
    case Play(card, command) => card as int < NUM_CARDS && IsPerformance(command)
  }

  function SetValueItems(p: Part, address: byte, value: byte): seq<Item>
    requires |p.bytes| == PART_SIZE && address as int < PART_SIZE
  {
    if address as int < PATCH_SIZE then ToAll(p.cards, Encode(WritePatch(address, value)))
    else if address as int < PATCH_SIZE + CARD_PART_SIZE then
      ToAll(p.cards, Encode(WritePart(address - PATCH_SIZE as byte, value)))
    else if address as int == MODE_ADDRESS && p.bytes[address] != value then ToAll(p.cards, Encode(Kill))
    else []
  }

  // ---- What an operation is for ----

  /** What a command tells a card's sound engine; a velocity is doubled in eight bits. */
  function Tells(command: Command): seq<Action>
    requires Sendable(command)
  {
    match command
    case Trigger(note, velocity, legato) =>
      [NoteOn(note, if velocity < 128 then 2 * velocity else 2 * (velocity - 128), legato == 1)]
    case WriteModulation(source, value) => if source as int < MOD_SRC_COUNT then [SetSource(source, value)] else []
    case WriteLfo(index, value) => [SetSource(MOD_SRC_LFO_1 + index, value)]
    case Release => [NoteReleased]
    case Kill => [NoteKilled]
    case RetriggerEnvelope(index) => [EnvelopeTriggered(index)]
    case ResetAllControllers => [ControllersReset]
    case _ => []
  }

  ghost predicate IsOwned(parts: seq<Part>, c: byte, from: nat := 0) {
    exists i :: from <= i < |parts| && c in parts[i].cards
  }

  /**
   What an operation tells the sound engine of a card: a command, that its note ends because the part it belongs
   to gets another polyphony mode, or that it ends because the cards are given out again.
   */
  ghost function Told(parts: seq<Part>, op: Operation, c: byte): seq<Action> {
    match op
    case SetValue(n, address, value) =>
      if n < |parts| && |parts[n].bytes| == PART_SIZE && c in parts[n].cards
         && address as int == MODE_ADDRESS && parts[n].bytes[MODE_ADDRESS] != value
      then [NoteKilled] else []
    case LoadPatch(_, _) => []
    case LoadSettings(n, settings) =>
      if n < |parts| && |settings| == PART_SIZE - PATCH_SIZE && c in parts[n].cards
         && settings[MODE_ADDRESS - PATCH_SIZE] != parts[n].mode
      then [NoteKilled] else []
    case AssignVoices(_) => if IsOwned(parts, c) then [NoteKilled] else []
    case Play(card, command) => if c == card && Sendable(command) then Tells(command) else []
  }

  lemma PerformTells(x: Card, command: Command)
    requires Sendable(command) && !command.Reset?
    ensures Perform(x, command).actions == x.actions + Tells(command)
  {
  }

  ghost predicate SystemShape(s: System) {
    && |s.parts| == NUM_PARTS && |s.backlog| == |s.cards| == NUM_CARDS
    && (forall i :: 0 <= i < |s.parts| ==> |s.parts[i].bytes| == PART_SIZE)
    && (forall c :: 0 <= c < |s.cards| ==> Protocol.WellFormed(s.cards[c]))
  }

  function Start(s: System, op: Operation): System
    requires SystemShape(s) && Allowed(s, op)
  {
    match op
    case SetValue(part, address, value) =>
      var p := s.parts[part];
      var mode := if address as int == MODE_ADDRESS && p.bytes[address] != value then value else p.mode;
      s.(parts := s.parts[part := Part(p.bytes[address := value], p.cards, mode)],
          todo := SetValueItems(p, address, value))
    case LoadPatch(part, patch) =>
      var p := s.parts[part];
      s.(parts := s.parts[part := p.(bytes := patch + p.bytes[PATCH_SIZE..])], todo := TouchPatch(p.cards, patch))
    case LoadSettings(part, settings) =>
      var p := s.parts[part];
      var loaded := p.(bytes := p.bytes[..PATCH_SIZE] + settings);
      s.(parts := s.parts[part := loaded.(mode := loaded.bytes[MODE_ADDRESS])],
         todo := TouchFrom(p.cards, SettingsOf(loaded), 0) + ModeItems(loaded))
    case AssignVoices(masks) =>
      s.(parts := AssignAll(s.parts, masks),
         todo := AssignAllItems(s.parts, masks, 0))
    case Play(card, command) => s.(todo := QueueBytes(card, Encode(command)))
  }

  // ---- Steps ----

  datatype Step =
    | Begin(op: Operation)          // the main loop starts its next operation
    | Enqueue                       // it puts its next byte into a queue that has room
    | Transfer                      // it writes its next byte over the link, both queues being empty
    | Interrupt                     // one tick of the transmit timer; the card's interrupt stores the byte
    | Digest(card: nat)             // a card's main loop takes one byte from its backlog

  function QueueOf(s: System, card: byte): seq<Word> {
    if card % 2 == 1 then s.odd else s.even
  }

  ghost predicate Next(s: System, step: Step, s': System) {
    SystemShape(s) &&
    match step
    case Begin(op) =>
      s.todo == [] && Allowed(s, op) && s' == Start(s, op)
    case Enqueue =>
      && s.todo != [] && s.todo[0].Queued? && |QueueOf(s, s.todo[0].card)| < QUEUE_SIZE - 1
      && var l := Put(Link(s.even, s.odd, s.flop, []), Word(s.todo[0].card, s.todo[0].value));
         s' == s.(even := l.even, odd := l.odd, todo := s.todo[1..])
    case Transfer =>
      && s.todo != [] && s.todo[0].Linked? && s.todo[0].card as int < NUM_CARDS
      && s.even == s.odd == [] && s.backlog[s.todo[0].card] == []
      && s' == s.(cards := s.cards[s.todo[0].card := Feed(s.cards[s.todo[0].card], Direct(s.todo[0].value))],
         todo := s.todo[1..])
    case Interrupt =>
      var l := Tick(Link(s.even, s.odd, s.flop, []));
      if l.sent == [] then s' == s.(flop := l.flop)
      else
        && l.sent[0].card as int < NUM_CARDS && |s.backlog[l.sent[0].card]| < 255
        && s' == s.(even := l.even, odd := l.odd, flop := l.flop,
                    backlog := s.backlog[l.sent[0].card := s.backlog[l.sent[0].card] + [l.sent[0].value]])
    case Digest(card) =>
      && card < NUM_CARDS && s.backlog[card] != []
      && s.cards[card].parser != AwaitingSize && !s.cards[card].parser.InBlock?
      && s' == s.(cards := s.cards[card := Feed(s.cards[card], Buffered(s.backlog[card][0]))],
                  backlog := s.backlog[card := s.backlog[card][1..]])
  }

  // ---- The invariant: a card plus everything in flight for it is its part's state ----

  function ItemFor(item: Item, card: byte): seq<Symbol> {
    if item.card != card then [] else if item.Queued? then [Buffered(item.value)] else [Direct(item.value)]
  }

  function TodoFor(items: seq<Item>, card: byte): seq<Symbol> {
    if items == [] then [] else ItemFor(items[0], card) + TodoFor(items[1..], card)
  }

  function InFlight(s: System, card: byte): seq<Symbol>
    requires card as int < |s.backlog|
  {
    Buffer(s.backlog[card]) + Buffer(For(QueueOf(s, card), card)) + TodoFor(s.todo, card)
  }

  /** The card once everything written for it so far has arrived and been digested. */
  ghost function Settled(s: System, card: byte): (r: Card)
    requires SystemShape(s) && card as int < NUM_CARDS
    ensures Protocol.WellFormed(r)
  {
    FeedAll(s.cards[card], InFlight(s, card))
  }

  /** The card ends between two commands and holds what its owner holds. */
  ghost predicate Agrees(parts: seq<Part>, card: Card, c: byte)
    requires forall i :: 0 <= i < |parts| ==> |parts[i].bytes| == PART_SIZE
  {
    && card.parser == Expecting
    && forall i :: 0 <= i < |parts| && c in parts[i].cards ==>
       card.patch == PatchOf(parts[i]) && card.part == SettingsOf(parts[i])
  }

  ghost predicate CardsValid(parts: seq<Part>) {
    && (forall i :: 0 <= i < |parts| ==> Distinct(parts[i].cards))
    && (forall i, c :: 0 <= i < |parts| && c in parts[i].cards ==> c as int < NUM_CARDS)
    && (forall i, j, c :: 0 <= i < j < |parts| && c in parts[i].cards ==> c !in parts[j].cards)
  }

  ghost predicate Inv(s: System) {
    && SystemShape(s) && CardsValid(s.parts)
    && WellSorted(Link(s.even, s.odd, s.flop, []))
    && (forall i :: 0 <= i < |s.even| ==> s.even[i].card as int < NUM_CARDS)
    && (forall i :: 0 <= i < |s.odd| ==> s.odd[i].card as int < NUM_CARDS)
    && (forall i :: 0 <= i < |s.todo| ==> s.todo[i].card as int < NUM_CARDS)
    && forall c: byte :: c as int < NUM_CARDS ==> Agrees(s.parts, Settled(s, c), c)
  }

  // ---- Algebra of items ----

  lemma {:induction false} TodoForBoth(a: seq<Item>, b: seq<Item>, card: byte)
    ensures TodoFor(a + b, card) == TodoFor(a, card) + TodoFor(b, card)
  {
    if a == [] {
      assert a + b == b;
    } else {
      assert (a + b)[0] == a[0] && (a + b)[1..] == a[1..] + b;
      hide ItemFor;
      TodoForBoth(a[1..], b, card);
      var first := ItemFor(a[0], card);
      assert first + (TodoFor(a[1..], card) + TodoFor(b, card)) == first + TodoFor(a[1..], card) + TodoFor(b, card);
    }
  }

  lemma {:induction false} TodoForQueued(to: byte, bytes: seq<byte>, card: byte)
    ensures TodoFor(QueueBytes(to, bytes), card) == if card == to then Buffer(bytes) else []
  {
    if bytes != [] {
      assert QueueBytes(to, bytes)[1..] == QueueBytes(to, bytes[1..]);
      TodoForQueued(to, bytes[1..], card);
      BufferHead(bytes);
    }
  }

  lemma {:induction false} TodoForLinked(to: byte, bytes: seq<byte>, card: byte)
    ensures TodoFor(LinkBytes(to, bytes), card) == if card == to then Directly(bytes) else []
  {
    if bytes != [] {
      assert LinkBytes(to, bytes)[1..] == LinkBytes(to, bytes[1..]);
      TodoForLinked(to, bytes[1..], card);
      assert Directly(bytes) == [Direct(bytes[0])] + Directly(bytes[1..]);
    }
  }

  /** A broadcast reaches each listed card once. */
  lemma {:induction false} TodoForAll(cards: seq<byte>, bytes: seq<byte>, card: byte)
    requires Distinct(cards)
    ensures TodoFor(ToAll(cards, bytes), card) == if card in cards then Buffer(bytes) else []
  {
    if cards != [] {
      TodoForQueued(cards[0], bytes, card);
      TodoForBoth(QueueBytes(cards[0], bytes), ToAll(cards[1..], bytes), card);
      TodoForAll(cards[1..], bytes, card);
      assert card in cards <==> card == cards[0] || card in cards[1..];
    }
  }

  lemma {:induction false} TodoForBlocks(cards: seq<byte>, patch: seq<byte>, card: byte)
    requires Distinct(cards) && |patch| == PATCH_SIZE
    ensures TodoFor(BlockToAll(cards, patch), card) ==
            if card in cards then Directly([PATCH_SIZE as byte] + patch) else []
  {
    if cards != [] {
      TodoForLinked(cards[0], [PATCH_SIZE as byte] + patch, card);
      TodoForBoth(LinkBytes(cards[0], [PATCH_SIZE as byte] + patch), BlockToAll(cards[1..], patch), card);
      TodoForBlocks(cards[1..], patch, card);
      assert card in cards <==> card == cards[0] || card in cards[1..];
    }
  }

  ghost function AfterItems(x: Card, items: seq<Item>, card: byte): (r: Card)
    requires Protocol.WellFormed(x)
    ensures Protocol.WellFormed(r)
  {
    FeedAll(x, TodoFor(items, card))
  }

  lemma AfterBoth(x: Card, a: seq<Item>, b: seq<Item>, card: byte)
    requires Protocol.WellFormed(x)
    ensures AfterItems(x, a + b, card) == AfterItems(AfterItems(x, a, card), b, card)
  {
    TodoForBoth(a, b, card);
    FeedInTwo(x, TodoFor(a, card), TodoFor(b, card));
  }

  lemma AfterCommand(x: Card, cards: seq<byte>, command: Command, card: byte)
    requires Protocol.WellFormed(x) && x.parser == Expecting && Distinct(cards) && Sendable(command)
    ensures AfterItems(x, ToAll(cards, Encode(command)), card) == if card in cards then Perform(x, command) else x
  {
    TodoForAll(cards, Encode(command), card);
    if card in cards {
      CommandIsPerformed(x, command);
    }
  }

  lemma AfterTouchPatch(x: Card, cards: seq<byte>, patch: seq<byte>, card: byte)
    requires Protocol.WellFormed(x) && x.parser == Expecting && Distinct(cards) && |patch| == PATCH_SIZE
    ensures AfterItems(x, TouchPatch(cards, patch), card) == if card in cards then x.(patch := patch) else x
  {
    TodoForAll(cards, [0x00], card);
    TodoForBlocks(cards, patch, card);
    TodoForBoth(ToAll(cards, [0x00]), BlockToAll(cards, patch), card);
    if card in cards {
      BlockReplacesPatch(x, patch);
      assert Buffer([0x00]) == [Buffered(0x00)];
    }
  }

  /** The writes of `Touch` bring a card's copy of the settings up to date, one address after the other. */
  lemma {:induction false} AfterTouch(x: Card, cards: seq<byte>, settings: seq<byte>, address: nat, card: byte)
    requires Protocol.WellFormed(x) && x.parser == Expecting && Distinct(cards)
    requires |settings| == CARD_PART_SIZE && address <= CARD_PART_SIZE
    requires card in cards ==> x.part[..address] == settings[..address]
    ensures AfterItems(x, TouchFrom(cards, settings, address), card) ==
            if card in cards then x.(part := settings) else x
    decreases CARD_PART_SIZE - address
  {
    hide FeedAll, TodoFor, ToAll, Encode, Distinct;
    if address < CARD_PART_SIZE {
      var command := WritePart(address as byte, settings[address]);
      AfterBoth(x, ToAll(cards, Encode(command)), TouchFrom(cards, settings, address + 1), card);
      AfterCommand(x, cards, command, card);
      var x' := if card in cards then Perform(x, command) else x;
      if card in cards {
        assert x'.part == x.part[address := settings[address]];
        assert x'.part[..address + 1] == x.part[..address] + [settings[address]] == settings[..address + 1];
      }
      AfterTouch(x', cards, settings, address + 1, card);
    } else {
      AfterNothing(x, card);
      if card in cards {
        assert x.part == x.part[..address] == settings[..address] == settings;
      }
    }
  }

  lemma AfterNothing(x: Card, card: byte)
    requires Protocol.WellFormed(x)
    ensures AfterItems(x, [], card) == x
  {
  }

  /** One part's turn: an old card is silenced, a new card gets the whole state, others hear nothing. */
  lemma AfterAssign(x: Card, p: Part, cards: seq<byte>, card: byte)
    requires Protocol.WellFormed(x) && x.parser == Expecting
    requires Distinct(cards) && Distinct(p.cards) && |p.bytes| == PART_SIZE
    ensures var r := AfterItems(x, AssignItems(p, cards), card);
            && r.parser == Expecting
            && r.patch == (if card in cards then PatchOf(p) else x.patch)
            && r.part == (if card in cards then SettingsOf(p) else x.part)
            && r.actions == x.actions + if card in p.cards then [NoteKilled] else []
  {
    var kill, patch, touch :=
        ToAll(p.cards, Encode(Kill)), TouchPatch(cards, PatchOf(p)), TouchFrom(cards, SettingsOf(p), 0);
    AfterCommand(x, p.cards, Kill, card);
    var killed := AfterItems(x, kill, card);
    AfterTouchPatch(killed, cards, PatchOf(p), card);
    var patched := AfterItems(killed, patch, card);
    AfterTouch(patched, cards, SettingsOf(p), 0, card);
    AfterBoth(x, kill, patch, card);
    AfterBoth(x, kill + patch, touch, card);
  }

  lemma {:induction false} AfterAssignAll(x: Card, parts: seq<Part>, masks: seq<byte>, from: nat, card: byte)
    requires Protocol.WellFormed(x) && x.parser == Expecting
    requires |parts| == |masks| && from <= |parts| && Ownership.ConflictFree(masks)
    requires forall i :: 0 <= i < |parts| ==> |parts[i].bytes| == PART_SIZE && Distinct(parts[i].cards)
    requires forall i :: 0 <= i < from && card in Ownership.CardsOf(masks[i]) ==>
               x.patch == PatchOf(parts[i]) && x.part == SettingsOf(parts[i])
    requires forall i, j :: 0 <= i < j < |parts| && card in parts[i].cards ==> card !in parts[j].cards
    ensures var r := AfterItems(x, AssignAllItems(parts, masks, from), card);
            && r.parser == Expecting
            && r.actions == x.actions + (if IsOwned(parts, card, from) then [NoteKilled] else [])
            && forall i :: 0 <= i < |parts| && card in Ownership.CardsOf(masks[i]) ==>
                 r.patch == PatchOf(parts[i]) && r.part == SettingsOf(parts[i])
    decreases |parts| - from
  {
    hide FeedAll, TodoFor, AfterItems, AssignItems, Distinct, PatchOf, SettingsOf;
    hide Ownership.CardsOf, Ownership.ConflictFree, Protocol.WellFormed;
    if from == |parts| {
      AfterNothing(x, card);
    } else {
      var cards := Ownership.CardsOf(masks[from]);
      Ownership.CardsAreDistinct(masks[from], Ownership.NUM_VOICES);
      var items := AssignItems(parts[from], cards);
      AfterBoth(x, items, AssignAllItems(parts, masks, from + 1), card);
      AfterAssign(x, parts[from], cards, card);
      var next := AfterItems(x, items, card);
      forall i | 0 <= i < from + 1 && card in Ownership.CardsOf(masks[i])
        ensures next.patch == PatchOf(parts[i]) && next.part == SettingsOf(parts[i])
      {
        if i < from {
          Ownership.NoSharedCard(masks, i, from, card);
        }
      }
      AfterAssignAll(next, parts, masks, from + 1, card);
      KilledOnce(parts, card, from, x.actions);
    }
  }

  lemma KilledOnce(parts: seq<Part>, card: byte, from: nat, actions: seq<Action>)
    requires from < |parts|
    requires forall i, j :: 0 <= i < j < |parts| && card in parts[i].cards ==> card !in parts[j].cards
    ensures actions + (if card in parts[from].cards then [NoteKilled] else []) +
            (if IsOwned(parts, card, from + 1) then [NoteKilled] else []) ==
            actions + if IsOwned(parts, card, from) then [NoteKilled] else []
  {
  }

  // ---- Items stay on the cards there are ----

  ghost predicate OnCards(items: seq<Item>) {
    forall i :: 0 <= i < |items| ==> items[i].card as int < NUM_CARDS
  }

  ghost predicate AreCards(cards: seq<byte>) {
    forall c :: c in cards ==> c as int < NUM_CARDS
  }

  lemma {:induction false} ToAllOnCards(cards: seq<byte>, bytes: seq<byte>)
    requires AreCards(cards)
    ensures OnCards(ToAll(cards, bytes))
  {
    if cards != [] {
      assert cards[0] in cards && forall c :: c in cards[1..] ==> c in cards;
      ToAllOnCards(cards[1..], bytes);
    }
  }

  lemma {:induction false} BlockToAllOnCards(cards: seq<byte>, patch: seq<byte>)
    requires AreCards(cards) && |patch| == PATCH_SIZE
    ensures OnCards(BlockToAll(cards, patch))
  {
    if cards != [] {
      assert cards[0] in cards && forall c :: c in cards[1..] ==> c in cards;
      BlockToAllOnCards(cards[1..], patch);
    }
  }

  lemma {:induction false} TouchFromOnCards(cards: seq<byte>, settings: seq<byte>, address: nat)
    requires AreCards(cards) && |settings| == CARD_PART_SIZE && address <= CARD_PART_SIZE
    ensures OnCards(TouchFrom(cards, settings, address))
    decreases CARD_PART_SIZE - address
  {
    if address < CARD_PART_SIZE {
      ToAllOnCards(cards, Encode(WritePart(address as byte, settings[address])));
      TouchFromOnCards(cards, settings, address + 1);
    }
  }

  lemma AssignOnCards(p: Part, cards: seq<byte>)
    requires AreCards(cards) && AreCards(p.cards) && |p.bytes| == PART_SIZE
    ensures OnCards(AssignItems(p, cards))
  {
    hide ToAll, BlockToAll, TouchFrom, Encode, PatchOf, SettingsOf;
    ToAllOnCards(p.cards, Encode(Kill));
    ToAllOnCards(cards, [0x00]);
    BlockToAllOnCards(cards, PatchOf(p));
    TouchFromOnCards(cards, SettingsOf(p), 0);
  }

  lemma {:induction false} AssignAllOnCards(parts: seq<Part>, masks: seq<byte>, from: nat)
    requires |parts| == |masks| && from <= |parts|
    requires forall i :: 0 <= i < |parts| ==> |parts[i].bytes| == PART_SIZE && AreCards(parts[i].cards)
    ensures OnCards(AssignAllItems(parts, masks, from))
    decreases |parts| - from
  {
    hide AssignItems, Ownership.CardsOf;
    if from < |parts| {
      AssignOnCards(parts[from], Ownership.CardsOf(masks[from]));
      AssignAllOnCards(parts, masks, from + 1);
    }
  }

  // ---- The main loop's operations keep the invariant ----

  /** With nothing left to write, an operation's items come after everything in flight. */
  lemma BeginSettles(s: System, s': System, c: byte)
    requires SystemShape(s) && SystemShape(s') && c as int < NUM_CARDS && s.todo == []
    requires s'.even == s.even && s'.odd == s.odd && s'.backlog == s.backlog && s'.cards == s.cards
    ensures Settled(s', c) == AfterItems(Settled(s, c), s'.todo, c)
  {
    var before := Buffer(s.backlog[c]) + Buffer(For(QueueOf(s, c), c));
    assert TodoFor(s.todo, c) == [];
    assert InFlight(s, c) == before;
    assert InFlight(s', c) == before + TodoFor(s'.todo, c);
    FeedInTwo(s.cards[c], before, TodoFor(s'.todo, c));
  }

  /** One part and its cards change together; nobody else's cards do. */
  lemma PartUpdated(parts: seq<Part>, n: nat, p: Part, x: Card, y: Card, c: byte)
    requires forall i :: 0 <= i < |parts| ==> |parts[i].bytes| == PART_SIZE
    requires n < |parts| && CardsValid(parts) && Agrees(parts, x, c)
    requires p.cards == parts[n].cards && |p.bytes| == PART_SIZE && y.parser == Expecting
    requires c in p.cards ==> y.patch == PatchOf(p) && y.part == SettingsOf(p)
    requires c !in p.cards ==> y.patch == x.patch && y.part == x.part
    ensures Agrees(parts[n := p], y, c) && CardsValid(parts[n := p])
  {
    hide Distinct;
    var parts' := parts[n := p];
    assert forall i :: 0 <= i < |parts'| ==> parts'[i].cards == parts[i].cards;
    assert CardsValid(parts');
  }

  /** What a single value does to a card that listens, and to the part's bytes. */
  lemma SetValueKeeps(x: Card, p: Part, address: byte, value: byte, c: byte)
    requires Protocol.WellFormed(x) && x.parser == Expecting && Distinct(p.cards) && |p.bytes| == PART_SIZE
    requires address as int < PART_SIZE
    requires c in p.cards ==> x.patch == PatchOf(p) && x.part == SettingsOf(p)
    ensures var y, p' := AfterItems(x, SetValueItems(p, address, value), c), p.(bytes := p.bytes[address := value]);
            && y.parser == Expecting
            && (c in p.cards ==> y.patch == PatchOf(p') && y.part == SettingsOf(p'))
            && (c !in p.cards ==> y.patch == x.patch && y.part == x.part)
            && y.actions == x.actions +
                 if c in p.cards && address as int == MODE_ADDRESS && p.bytes[MODE_ADDRESS] != value then [NoteKilled]
                 else []
  {
    hide AfterItems, Distinct, ToAll, Encode;
    var p' := p.(bytes := p.bytes[address := value]);
    if address as int < PATCH_SIZE {
      AfterCommand(x, p.cards, WritePatch(address, value), c);
      assert PatchOf(p') == PatchOf(p)[address := value] && SettingsOf(p') == SettingsOf(p);
    } else {
      assert PatchOf(p') == PatchOf(p);
      if address as int < PATCH_SIZE + CARD_PART_SIZE {
        AfterCommand(x, p.cards, WritePart(address - PATCH_SIZE as byte, value), c);
        assert SettingsOf(p') == SettingsOf(p)[address as int - PATCH_SIZE := value];
      } else {
        assert SettingsOf(p') == SettingsOf(p);
        AfterCommand(x, p.cards, Kill, c);
        AfterNothing(x, c);
      }
    }
  }

  /** Loaded settings arrive, and a changed mode silences the part. */
  lemma LoadSettingsKeeps(x: Card, p: Part, c: byte)
    requires Protocol.WellFormed(x) && x.parser == Expecting && Distinct(p.cards) && |p.bytes| == PART_SIZE
    ensures var y := AfterItems(x, TouchFrom(p.cards, SettingsOf(p), 0) + ModeItems(p), c);
            && y.parser == Expecting && y.patch == x.patch
            && y.part == (if c in p.cards then SettingsOf(p) else x.part)
            && y.actions == x.actions + if c in p.cards && p.bytes[MODE_ADDRESS] != p.mode then [NoteKilled] else []
  {
    hide AfterItems, Distinct, ToAll, Encode, TouchFrom;
    var touch := TouchFrom(p.cards, SettingsOf(p), 0);
    AfterTouch(x, p.cards, SettingsOf(p), 0, c);
    var touched := AfterItems(x, touch, c);
    AfterBoth(x, touch, ModeItems(p), c);
    AfterCommand(touched, p.cards, Kill, c);
    AfterNothing(touched, c);
  }

  /** A note command is heard by its card alone and leaves the copies alone. */
  lemma PlayKeeps(x: Card, card: byte, command: Command, c: byte)
    requires Protocol.WellFormed(x) && x.parser == Expecting && IsPerformance(command)
    ensures var y := AfterItems(x, QueueBytes(card, Encode(command)), c);
            && y.parser == Expecting && y.patch == x.patch && y.part == x.part
            && y.actions == x.actions + if c == card then Tells(command) else []
  {
    TodoForQueued(card, Encode(command), c);
    if c == card {
      CommandIsPerformed(x, command);
      PerformTells(x, command);
    }
  }

  /** Conflict-free masks give each part cards of its own. */
  lemma AssignedCardsAreValid(parts: seq<Part>, masks: seq<byte>)
    requires |parts| == |masks| && Ownership.ConflictFree(masks)
    requires forall i :: 0 <= i < |parts| ==> |parts[i].bytes| == PART_SIZE
    ensures CardsValid(AssignAll(parts, masks))
  {
    hide Distinct, Ownership.ConflictFree, Ownership.CardsOf, Ownership.Claims;
    var owners := AssignAll(parts, masks);
    forall i | 0 <= i < |owners| ensures Distinct(owners[i].cards) {
      Ownership.CardsAreDistinct(masks[i], Ownership.NUM_VOICES);
    }
    forall i, j, c | 0 <= i < j < |owners| && c in owners[i].cards ensures c !in owners[j].cards {
      Ownership.NoSharedCard(masks, i, j, c);
    }
  }

  /** The new cards of every part hold its state, whoever owned them before. */
  lemma AssignKeeps(parts: seq<Part>, masks: seq<byte>, x: Card, c: byte)
    requires |parts| == |masks| && Ownership.ConflictFree(masks) && CardsValid(parts)
    requires forall i :: 0 <= i < |parts| ==> |parts[i].bytes| == PART_SIZE
    requires Protocol.WellFormed(x) && x.parser == Expecting
    ensures Agrees(AssignAll(parts, masks), AfterItems(x, AssignAllItems(parts, masks, 0), c), c)
    ensures AfterItems(x, AssignAllItems(parts, masks, 0), c).actions ==
            x.actions + if IsOwned(parts, c) then [NoteKilled] else []
  {
    hide *;
    CardsApart(parts, c);
    AfterAssignAll(x, parts, masks, 0, c);
    AssignedAgree(parts, masks, AfterItems(x, AssignAllItems(parts, masks, 0), c), c);
  }

  lemma CardsApart(parts: seq<Part>, c: byte)
    requires CardsValid(parts)
    ensures forall i :: 0 <= i < |parts| ==> Distinct(parts[i].cards)
    ensures forall i, j :: 0 <= i < j < |parts| && c in parts[i].cards ==> c !in parts[j].cards
  {
    hide Distinct;
  }

  lemma AssignedAgree(parts: seq<Part>, masks: seq<byte>, y: Card, c: byte)
    requires |parts| == |masks| && y.parser == Expecting
    requires forall i :: 0 <= i < |parts| ==> |parts[i].bytes| == PART_SIZE
    requires forall i :: 0 <= i < |parts| && c in Ownership.CardsOf(masks[i]) ==>
               y.patch == PatchOf(parts[i]) && y.part == SettingsOf(parts[i])
    ensures Agrees(AssignAll(parts, masks), y, c)
  {
    hide Ownership.CardsOf;
  }

  lemma LoadedPatch(p: Part, patch: seq<byte>)
    requires |p.bytes| == PART_SIZE && |patch| == PATCH_SIZE
    ensures var loaded := p.(bytes := patch + p.bytes[PATCH_SIZE..]);
            |loaded.bytes| == PART_SIZE && PatchOf(loaded) == patch && SettingsOf(loaded) == SettingsOf(p)
  {
  }

  lemma LoadedSettings(p: Part, settings: seq<byte>)
    requires |p.bytes| == PART_SIZE && |settings| == PART_SIZE - PATCH_SIZE
    ensures var loaded := p.(bytes := p.bytes[..PATCH_SIZE] + settings);
            |loaded.bytes| == PART_SIZE && PatchOf(loaded) == PatchOf(p)
  {
  }

  /** Whatever the main loop starts, once it has arrived the cards agree again. */
  lemma StartKeepsAgreement(s: System, op: Operation, x: Card, c: byte)
    requires SystemShape(s) && CardsValid(s.parts) && Allowed(s, op)
    requires Protocol.WellFormed(x) && Agrees(s.parts, x, c)
    ensures var s' := Start(s, op);
            && SystemShape(s') && Agrees(s'.parts, AfterItems(x, s'.todo, c), c) && CardsValid(s'.parts)
            && AfterItems(x, s'.todo, c).actions == x.actions + Told(s.parts, op, c)
  {
    hide AfterItems, Distinct, ToAll, TouchPatch, TouchFrom, Encode, SetValueItems, ModeItems, AssignAllItems;
    var s' := Start(s, op);
    var y := AfterItems(x, s'.todo, c);
    match op
    case SetValue(n, address, value) =>
      SetValueKeeps(x, s.parts[n], address, value, c);
      PartUpdated(s.parts, n, s'.parts[n], x, y, c);
    case LoadPatch(n, patch) =>
      AfterTouchPatch(x, s.parts[n].cards, patch, c);
      LoadedPatch(s.parts[n], patch);
      PartUpdated(s.parts, n, s'.parts[n], x, y, c);
    case LoadSettings(n, settings) =>
      var loaded := s.parts[n].(bytes := s.parts[n].bytes[..PATCH_SIZE] + settings);
      LoadSettingsKeeps(x, loaded, c);
      LoadedSettings(s.parts[n], settings);
      PartUpdated(s.parts, n, s'.parts[n], x, y, c);
    case AssignVoices(masks) =>
      AssignKeeps(s.parts, masks, x, c);
      AssignedCardsAreValid(s.parts, masks);
    case Play(card, command) =>
      PlayKeeps(x, card, command, c);
  }

  /** The items of every operation are for cards there are. */
  lemma StartOnCards(s: System, op: Operation)
    requires SystemShape(s) && CardsValid(s.parts) && Allowed(s, op)
    ensures OnCards(Start(s, op).todo)
  {
    hide Distinct, ToAll, TouchFrom, BlockToAll, Encode, AssignAllItems;
    forall i | 0 <= i < |s.parts| ensures AreCards(s.parts[i].cards) {
    }
    match op
    case SetValue(n, address, value) =>
      var cards := s.parts[n].cards;
      ToAllOnCards(cards, Encode(Kill));
      ToAllOnCards(cards, Encode(WritePatch(address, value)));
      if PATCH_SIZE <= address as int < PATCH_SIZE + CARD_PART_SIZE {
        ToAllOnCards(cards, Encode(WritePart(address - PATCH_SIZE as byte, value)));
      }
    case LoadPatch(n, patch) =>
      ToAllOnCards(s.parts[n].cards, [0x00]);
      BlockToAllOnCards(s.parts[n].cards, patch);
    case LoadSettings(n, settings) =>
      var loaded := s.parts[n].(bytes := s.parts[n].bytes[..PATCH_SIZE] + settings);
      TouchFromOnCards(loaded.cards, SettingsOf(loaded), 0);
      ToAllOnCards(loaded.cards, Encode(Kill));
    case AssignVoices(masks) =>
      AssignAllOnCards(s.parts, masks, 0);
    case Play(card, command) =>
  }

  // ---- Bytes on their way stay on their way ----

  lemma BufferBoth(a: seq<byte>, b: seq<byte>)
    ensures Buffer(a + b) == Buffer(a) + Buffer(b)
  {
  }

  lemma EndOfQueue(queue: seq<Word>, head: Item, c: byte)
    ensures Buffer(For(queue + [Word(head.card, head.value)], c)) ==
            Buffer(For(queue, c)) + if head.card == c then [Buffered(head.value)] else []
  {
    ForBoth(queue, [Word(head.card, head.value)], c);
    ForOne(Word(head.card, head.value), c);
    BufferBoth(For(queue, c), For([Word(head.card, head.value)], c));
  }

  /** A byte moves from the main loop's list to the end of its queue. */
  lemma EnqueueKeepsFlight(s: System, s': System, c: byte)
    requires SystemShape(s) && SystemShape(s') && Next(s, Enqueue, s') && c as int < NUM_CARDS
    ensures InFlight(s', c) == InFlight(s, c)
  {
    hide Start, Allowed, Feed, FeedAll, Protocol.WellFormed, Tick, For, Buffer;
    EndOfQueue(QueueOf(s, c), s.todo[0], c);
  }

  lemma HeadOfQueue(backlog: seq<byte>, queue: seq<Word>, c: byte)
    requires queue != [] && queue[0].card == c
    ensures Buffer(backlog + [queue[0].value]) + Buffer(For(queue[1..], c)) == Buffer(backlog) + Buffer(For(queue, c))
  {
    BufferBoth(backlog, [queue[0].value]);
    BufferBoth([queue[0].value], For(queue[1..], c));
  }

  lemma OtherHead(queue: seq<Word>, c: byte)
    requires queue != [] && queue[0].card != c
    ensures For(queue[1..], c) == For(queue, c)
  {
  }

  /** A byte moves from the head of a queue to the end of a card's backlog. */
  lemma InterruptKeepsFlight(s: System, s': System, c: byte)
    requires SystemShape(s) && SystemShape(s') && WellSorted(Link(s.even, s.odd, s.flop, []))
    requires Next(s, Interrupt, s') && c as int < NUM_CARDS
    ensures InFlight(s', c) == InFlight(s, c)
  {
    hide Start, Allowed, Feed, FeedAll, Protocol.WellFormed, Put, TodoFor, Buffer, For;
    var queue := if s.flop then s.odd else s.even;
    assert s'.todo == s.todo;
    if queue == [] {
      assert s'.backlog == s.backlog && s'.even == s.even && s'.odd == s.odd;
    } else if queue[0].card == c {
      assert s'.backlog[c] == s.backlog[c] + [queue[0].value] && QueueOf(s', c) == queue[1..] && QueueOf(s, c) == queue;
      HeadOfQueue(s.backlog[c], queue, c);
    } else {
      assert s'.backlog[c] == s.backlog[c];
      OtherHead(queue, c);
    }
  }

  /** The card takes the next byte that was on its way to it. */
  lemma DigestKeepsSettled(s: System, s': System, card: nat, c: byte)
    requires SystemShape(s) && SystemShape(s') && Next(s, Digest(card), s') && c as int < NUM_CARDS
    ensures Settled(s', c) == Settled(s, c)
  {
    hide Start, Allowed, Feed, Protocol.WellFormed, Put, Tick, TodoFor, For;
    if c as int == card {
      BufferHead(s.backlog[c]);
      var rest := Buffer(s.backlog[c][1..]) + Buffer(For(QueueOf(s, c), c)) + TodoFor(s.todo, c);
      assert InFlight(s, c) == [Buffered(s.backlog[c][0])] + rest;
      assert InFlight(s, c)[1..] == rest == InFlight(s', c);
    }
  }

  lemma TransferKeepsSettled(s: System, s': System, c: byte)
    requires SystemShape(s) && SystemShape(s') && Next(s, Transfer, s') && c as int < NUM_CARDS
    ensures Settled(s', c) == Settled(s, c)
  {
    hide Next, InFlight, Feed, Protocol.WellFormed;
    TransferTakesHead(s, s', c);
    assert InFlight(s, c) != InFlight(s', c) ==> InFlight(s, c)[1..] == InFlight(s', c);
  }

  /** What goes straight over the link was first on its way to its card. */
  lemma TransferTakesHead(s: System, s': System, c: byte)
    requires SystemShape(s) && SystemShape(s') && Next(s, Transfer, s') && c as int < NUM_CARDS
    ensures s.todo != []
    ensures var head := s.todo[0];
            if c == head.card then
              s'.cards[c] == Feed(s.cards[c], Direct(head.value)) &&
                  InFlight(s, c) == [Direct(head.value)] + InFlight(s', c)
            else s'.cards[c] == s.cards[c] && InFlight(s, c) == InFlight(s', c)
  {
    hide Start, Allowed, Feed, Protocol.WellFormed, Put, Tick, TodoFor;
    HeadOfTodo(s.todo, c);
    if c == s.todo[0].card {
      assert Buffer(s.backlog[c]) == [] && Buffer(For(QueueOf(s, c), c)) == [];
    }
  }

  lemma HeadOfTodo(items: seq<Item>, c: byte)
    requires items != []
    ensures TodoFor(items, c) == ItemFor(items[0], c) + TodoFor(items[1..], c)
  {
  }

  // ---- Every run ----

  lemma StepKeepsSettled(s: System, step: Step, s': System, c: byte)
    requires SystemShape(s) && SystemShape(s') && WellSorted(Link(s.even, s.odd, s.flop, []))
    requires Next(s, step, s') && !step.Begin? && c as int < NUM_CARDS
    ensures s'.parts == s.parts && Settled(s', c) == Settled(s, c)
  {
    hide Start, Allowed, Feed, FeedAll, InFlight;
    match step
    case Begin(_) =>
    case Enqueue => EnqueueKeepsFlight(s, s', c);
    case Transfer => TransferKeepsSettled(s, s', c);
    case Interrupt => InterruptKeepsFlight(s, s', c);
    case Digest(card) => DigestKeepsSettled(s, s', card, c);
  }

  /** Everything but the agreement of the cards. */
  lemma StepKeepsShape(s: System, step: Step, s': System)
    requires Inv(s) && Next(s, step, s')
    ensures SystemShape(s') && Sorted(s')
  {
    hide *;
    InvShape(s);
    match step
    case Begin(op) =>
      Begun(s, op, s');
      StartOnCards(s, op);
      StartKeepsShape(s, op);
    case Enqueue => EnqueueKeepsShape(s, s');
    case Transfer => CardStepKeepsShape(s, step, s');
    case Interrupt => InterruptKeepsShape(s, s');
    case Digest(_) => CardStepKeepsShape(s, step, s');
  }

  /** The words in the queues and the items still to write are for cards there are, each in the queue of its card. */
  ghost predicate Sorted(s: System) {
    && WellSorted(Link(s.even, s.odd, s.flop, [])) && OnCards(s.todo)
    && (forall i :: 0 <= i < |s.even| ==> s.even[i].card as int < NUM_CARDS)
    && (forall i :: 0 <= i < |s.odd| ==> s.odd[i].card as int < NUM_CARDS)
  }

  lemma InvShape(s: System)
    requires Inv(s)
    ensures SystemShape(s) && CardsValid(s.parts) && Sorted(s)
  {
    hide Settled, Agrees, CardsValid, Protocol.WellFormed;
  }

  lemma Begun(s: System, op: Operation, s': System)
    requires Next(s, Begin(op), s')
    ensures Allowed(s, op) && s' == Start(s, op)
  {
    hide Start, Allowed;
  }

  lemma EnqueueKeepsShape(s: System, s': System)
    requires Sorted(s) && Next(s, Enqueue, s')
    ensures SystemShape(s') && Sorted(s')
  {
    hide Feed, Start, Allowed, Protocol.WellFormed, Tick;
  }

  lemma InterruptKeepsShape(s: System, s': System)
    requires Sorted(s) && Next(s, Interrupt, s')
    ensures SystemShape(s') && Sorted(s')
  {
    hide Feed, Start, Allowed, Protocol.WellFormed, Put;
  }

  lemma CardStepKeepsShape(s: System, step: Step, s': System)
    requires Sorted(s) && Next(s, step, s') && (step.Transfer? || step.Digest?)
    ensures SystemShape(s') && Sorted(s')
  {
    hide Feed, Start, Allowed, Protocol.WellFormed, Put, Tick;
  }

  lemma StartKeepsShape(s: System, op: Operation)
    requires SystemShape(s) && Allowed(s, op)
    ensures var s' := Start(s, op);
            && SystemShape(s') && s'.even == s.even && s'.odd == s.odd && s'.flop == s.flop
            && (Sorted(s) && OnCards(s'.todo) ==> Sorted(s'))
            && s'.backlog == s.backlog && s'.cards == s.cards
  {
    hide Protocol.WellFormed, Ownership.ConflictFree, IsPerformance, Encode;
    hide TouchPatch, TouchFrom, ModeItems, SetValueItems, AssignAllItems;
  }

  /** Every step of the main loop, of an interrupt or of a card keeps all cards in agreement with the controller. */
  lemma StepKeepsInv(s: System, step: Step, s': System)
    requires Inv(s) && Next(s, step, s')
    ensures Inv(s')
  {
    hide FeedAll, InFlight, CardsValid, Allowed, WellSorted, Agrees, Settled, Start, Feed, Put, Tick;
    StepKeepsShape(s, step, s');
    forall c: byte | c as int < NUM_CARDS ensures Agrees(s'.parts, Settled(s', c), c) && CardsValid(s'.parts) {
      if step.Begin? {
        StartKeepsShape(s, step.op);
        StartKeepsAgreement(s, step.op, Settled(s, c), c);
        BeginSettles(s, s', c);
      } else {
        StepKeepsSettled(s, step, s', c);
      }
    }
    assert CardsValid(s'.parts) by {
      var first: byte := 0;
      assert Agrees(s'.parts, Settled(s', first), first);
    }
  }

  /** Power-up: nothing in flight, no card owned, and every card between two commands. */
  ghost predicate Init(s: System) {
    && SystemShape(s) && s.todo == [] && s.even == [] && s.odd == []
    && (forall i :: 0 <= i < |s.parts| ==> s.parts[i].cards == [])
    && (forall c :: 0 <= c < |s.cards| ==> s.backlog[c] == [] && s.cards[c].parser == Expecting)
  }

  ghost predicate IsRun(states: seq<System>, steps: seq<Step>) {
    && |states| == |steps| + 1 && Init(states[0])
    && forall i {:trigger steps[i]} :: 0 <= i < |steps| ==> Next(states[i], steps[i], states[i + 1])
  }

  lemma InitHasInv(s: System)
    requires Init(s)
    ensures Inv(s)
  {
    hide Agrees, Settled, Protocol.WellFormed;
    forall c: byte | c as int < NUM_CARDS ensures Agrees(s.parts, Settled(s, c), c) {
      InitAgrees(s, c);
    }
  }

  lemma InitAgrees(s: System, c: byte)
    requires Init(s) && c as int < NUM_CARDS
    ensures Agrees(s.parts, Settled(s, c), c)
  {
    hide PatchOf, SettingsOf, Protocol.WellFormed;
    assert InFlight(s, c) == [];
    assert Settled(s, c) == s.cards[c];
  }

  lemma {:induction false} RunKeepsInv(states: seq<System>, steps: seq<Step>, n: nat)
    requires IsRun(states, steps) && n <= |steps|
    ensures Inv(states[n])
  {
    hide Inv, Init, Next;
    if n == 0 {
      InitHasInv(states[0]);
    } else {
      RunKeepsInv(states, steps, n - 1);
      var step := steps[n - 1];
      StepKeepsInv(states[n - 1], step, states[n]);
    }
  }

  /** At any moment of any run, what is in flight for a card completes it to its owner's patch and settings. */
  lemma CardPlusFlightIsOwner(states: seq<System>, steps: seq<Step>, n: nat, part: nat, c: byte)
    requires IsRun(states, steps) && n <= |steps|
    ensures var s := states[n];
            && SystemShape(s)
            && (part < NUM_PARTS && c in s.parts[part].cards ==>
                  && c as int < NUM_CARDS && Settled(s, c).parser == Expecting
                  && Settled(s, c).patch == PatchOf(s.parts[part]) && Settled(s, c).part == SettingsOf(s.parts[part]))
  {
    RunKeepsInv(states, steps, n);
  }

  /** Nothing waits to be written or to be digested. */
  ghost predicate Drained(s: System) {
    s.todo == [] && s.even == [] && s.odd == [] && forall c :: 0 <= c < |s.backlog| ==> s.backlog[c] == []
  }

  /** Once everything has drained, every copy is equal to its owner's state. */
  lemma DrainedMeansEqual(states: seq<System>, steps: seq<Step>, n: nat, part: nat, c: byte)
    requires IsRun(states, steps) && n <= |steps| && Drained(states[n])
    ensures var s := states[n];
            && SystemShape(s)
            && (part < NUM_PARTS && c in s.parts[part].cards ==>
                  && c as int < NUM_CARDS
                  && s.cards[c].patch == PatchOf(s.parts[part]) && s.cards[c].part == SettingsOf(s.parts[part]))
  {
    CardPlusFlightIsOwner(states, steps, n, part, c);
    var s := states[n];
    if part < NUM_PARTS && c in s.parts[part].cards {
      assert InFlight(s, c) == [];
    }
  }

  // ---- And it does drain ----

  function TotalBacklog(backlog: seq<seq<byte>>): nat {
    if backlog == [] then 0 else |backlog[0]| + TotalBacklog(backlog[1..])
  }

  lemma {:induction false} BacklogChanges(backlog: seq<seq<byte>>, c: nat, bytes: seq<byte>)
    requires c < |backlog|
    ensures TotalBacklog(backlog[c := bytes]) + |backlog[c]| == TotalBacklog(backlog) + |bytes|
  {
    if c > 0 {
      assert backlog[c := bytes][1..] == backlog[1..][c - 1 := bytes];
      BacklogChanges(backlog[1..], c - 1, bytes);
    } else {
      assert backlog[c := bytes][1..] == backlog[1..];
    }
  }

  /** Every byte has three stages before it: list, queue and backlog. */
  function Work(s: System): nat {
    3 * |s.todo| + 2 * (|s.even| + |s.odd|) + TotalBacklog(s.backlog)
  }

  /** The queue whose turn it is has nothing to send. */
  predicate TurnPasses(s: System) {
    if s.flop then s.odd == [] else s.even == []
  }

  lemma {:induction false} DerailedStays(card: Card, symbols: seq<Symbol>)
    requires Protocol.WellFormed(card)
    ensures card.parser == Derailed ==> FeedAll(card, symbols).parser == Derailed
    decreases |symbols|
  {
    if symbols != [] && card.parser == Derailed {
      DerailedStays(Feed(card, symbols[0]), symbols[1..]);
    }
  }

  /** A card with a backlog is not inside a block, so it can take the next byte. */
  lemma BacklogIsDigestible(s: System, c: byte)
    requires Inv(s) && c as int < NUM_CARDS && s.backlog[c] != []
    ensures s.cards[c].parser != AwaitingSize && !s.cards[c].parser.InBlock?
  {
    var symbols := InFlight(s, c);
    BufferHead(s.backlog[c]);
    assert symbols[0] == Buffered(s.backlog[c][0]);
    var next := Feed(s.cards[c], symbols[0]);
    assert Settled(s, c) == FeedAll(next, symbols[1..]);
    DerailedStays(next, symbols[1..]);
  }

  /** Less is left to do, or the turn goes to a queue that has something to send. */
  ghost predicate Closer(s: System, s': System) {
    Work(s') < Work(s) || (Work(s') == Work(s) && TurnPasses(s) && !TurnPasses(s'))
  }

  lemma DigestIsCloser(s: System, c: byte) returns (s': System)
    requires Inv(s) && c as int < NUM_CARDS && s.backlog[c] != []
    ensures Next(s, Digest(c as nat), s') && Closer(s, s')
  {
    BacklogIsDigestible(s, c);
    hide Inv, Feed, FeedAll, Settled, Start, Allowed;
    s' := s.(cards := s.cards[c := Feed(s.cards[c], Buffered(s.backlog[c][0]))],
        backlog := s.backlog[c := s.backlog[c][1..]]);
    BacklogChanges(s.backlog, c as nat, s.backlog[c][1..]);
  }

  lemma InterruptIsCloser(s: System) returns (s': System)
    requires Inv(s) && (s.even != [] || s.odd != []) && forall c :: 0 <= c < |s.backlog| ==> s.backlog[c] == []
    ensures Next(s, Interrupt, s') && Closer(s, s')
  {
    hide Feed, FeedAll, Settled, Start, Allowed, CardsValid, Agrees;
    var l := Tick(Link(s.even, s.odd, s.flop, []));
    if TurnPasses(s) {
      s' := s.(flop := l.flop);
    } else {
      var word := l.sent[0];
      s' := s.(even := l.even, odd := l.odd, flop := l.flop,
          backlog := s.backlog[word.card := s.backlog[word.card] + [word.value]]);
      BacklogChanges(s.backlog, word.card as nat, s.backlog[word.card] + [word.value]);
    }
  }

  lemma MainLoopIsCloser(s: System) returns (step: Step, s': System)
    requires Inv(s) && s.todo != [] && s.even == s.odd == [] && forall c :: 0 <= c < |s.backlog| ==> s.backlog[c] == []
    ensures !step.Begin? && Next(s, step, s') && Closer(s, s')
  {
    hide Feed, FeedAll, Settled, Start, Allowed, CardsValid, Agrees;
    var head := s.todo[0];
    if head.Queued? {
      var l := Put(Link(s.even, s.odd, s.flop, []), Word(head.card, head.value));
      step, s' := Enqueue, s.(even := l.even, odd := l.odd, todo := s.todo[1..]);
    } else {
      step, s' := Transfer,
          s.(cards := s.cards[head.card := Feed(s.cards[head.card], Direct(head.value))], todo := s.todo[1..]);
    }
  }

  /** No step waits for one that cannot come: whatever is outstanding, some interrupt, card or loop can go on. */
  lemma NeverStuck(s: System) returns (step: Step, s': System)
    requires Inv(s) && !Drained(s)
    ensures !step.Begin? && Next(s, step, s') && Closer(s, s')
  {
    if c: nat :| c < |s.backlog| && s.backlog[c] != [] {
      s' := DigestIsCloser(s, c as byte);
      step := Digest(c);
    } else if s.even != [] || s.odd != [] {
      s' := InterruptIsCloser(s);
      step := Interrupt;
    } else {
      step, s' := MainLoopIsCloser(s);
    }
  }

  /** From every reachable state the steps left to do lead to one in which everything has drained. */
  lemma CanDrain(s: System) returns (states: seq<System>, steps: seq<Step>)
    requires Inv(s)
    ensures |states| == |steps| + 1 && states[0] == s && Inv(states[|steps|]) && Drained(states[|steps|])
    ensures forall i {:trigger steps[i]} :: 0 <= i < |steps| ==>
            !steps[i].Begin? && Next(states[i], steps[i], states[i + 1])
    decreases Work(s), if TurnPasses(s) then 1 else 0
  {
    hide Inv, Next, Drained, Work, TurnPasses;
    if Drained(s) {
      states, steps := [s], [];
    } else {
      var step, s' := NeverStuck(s);
      StepKeepsInv(s, step, s');
      var rest, later := CanDrain(s');
      states, steps := [s] + rest, [step] + later;
      forall i {:trigger steps[i]} | 0 <= i < |steps|
        ensures !steps[i].Begin? && Next(states[i], steps[i], states[i + 1])
      {
        if i > 0 {
          assert steps[i] == later[i - 1];
        }
      }
    }
  }
}
