/**
 The controller's transmitter: words for even and odd cards wait in two queues, which a timer
 interrupt empties in turn, one word a tick.

 The reference is a `Link`: the two queues as lists and everything sent so far.  What a card gets is
 its `Stream`, the bytes sent to it followed by those that wait for it.  A tick changes no stream, and
 writing extends the stream of one card only, although a full queue makes the writer wait for ticks
 and the two queues overtake each other.

 The class `Transmitter` holds the queues as ring buffers.  Each of its methods says which bytes it
 adds to which stream; the interrupt is a method that the waiting loops let run.
 */
module CardTransmitter {
  import opened Bytes
  import opened Protocol
  import opened RingBuffer

  datatype Word = Word(card: byte, value: byte)

  const QUEUE_SIZE := 32
  const NUM_CARDS := 6

  /** The bytes that one card gets out of a sequence of words. */
  function For(words: seq<Word>, card: byte): seq<byte> {
    if words == [] then []
    else (if words[0].card == card then [words[0].value] else []) + For(words[1..], card)
  }

  lemma {:induction false} ForBoth(a: seq<Word>, b: seq<Word>, card: byte)
    ensures For(a + b, card) == For(a, card) + For(b, card)
  {
    if a == [] {
      assert a + b == b;
    } else {
      assert (a + b)[0] == a[0] && (a + b)[1..] == a[1..] + b;
      ForBoth(a[1..], b, card);
      var first := if a[0].card == card then [a[0].value] else [];
      assert first + (For(a[1..], card) + For(b, card)) == first + For(a[1..], card) + For(b, card);
    }
  }

  lemma {:induction false} ForOtherParity(words: seq<Word>, card: byte)
    requires forall i :: 0 <= i < |words| ==> words[i].card % 2 != card % 2
    ensures For(words, card) == []
  {
    if words != [] {
      ForOtherParity(words[1..], card);
    }
  }

  lemma ForOne(word: Word, card: byte)
    ensures For([word], card) == if word.card == card then [word.value] else []
  {
    assert [word][1..] == [];
  }

  // ---- The reference: two queues and a link ----

  datatype Link = Link(even: seq<Word>, odd: seq<Word>, flop: bool, sent: seq<Word>)

  ghost predicate WellSorted(l: Link) {
    && (forall i :: 0 <= i < |l.even| ==> l.even[i].card % 2 == 0)
    && (forall i :: 0 <= i < |l.odd| ==> l.odd[i].card % 2 == 1)
  }

  /** One tick of the timer: the queues have their turns, and an empty one lets its turn pass. */
  function Tick(l: Link): Link {
    if !l.flop then
      if l.even == [] then l.(flop := true) else Link(l.even[1..], l.odd, true, l.sent + [l.even[0]])
    else
      if l.odd == [] then l.(flop := false) else Link(l.even, l.odd[1..], false, l.sent + [l.odd[0]])
  }

  function Put(l: Link, word: Word): Link {
    if word.card % 2 == 1 then l.(odd := l.odd + [word]) else l.(even := l.even + [word])
  }

  /** Every byte ever written for a card: first those sent, then those waiting. */
  function Stream(l: Link, card: byte): seq<byte> {
    For(l.sent, card) + For(if card % 2 == 1 then l.odd else l.even, card)
  }

  /** Moving the head of a queue to the end of what was sent keeps every card's bytes in order. */
  lemma MoveHead(sent: seq<Word>, queue: seq<Word>, card: byte)
    requires queue != []
    ensures For(sent + [queue[0]], card) + For(queue[1..], card) == For(sent, card) + For(queue, card)
  {
    ForBoth(sent, [queue[0]], card);
    ForOne(queue[0], card);
    assert For(sent, card) + For([queue[0]], card) + For(queue[1..], card) ==
           For(sent, card) + (For([queue[0]], card) + For(queue[1..], card));
  }

  lemma TickKeepsStream(l: Link, card: byte)
    requires WellSorted(l)
    ensures WellSorted(Tick(l)) && Stream(Tick(l), card) == Stream(l, card)
  {
    var queue := if l.flop then l.odd else l.even;
    if queue != [] {
      MoveHead(l.sent, queue, card);
      ForBoth(l.sent, [queue[0]], card);
      ForOne(queue[0], card);
    }
  }

  lemma PutExtendsStream(l: Link, word: Word, card: byte)
    requires WellSorted(l)
    ensures WellSorted(Put(l, word))
    ensures Stream(Put(l, word), card) == Stream(l, card) + if card == word.card then [word.value] else []
  {
    var queue := if word.card % 2 == 1 then l.odd else l.even;
    ForBoth(queue, [word], card);
    ForOne(word, card);
  }

  /** The link some ticks later. */
  function After(l: Link, ticks: nat): Link {
    if ticks == 0 then l else Tick(After(l, ticks - 1))
  }

  lemma {:induction false} AfterKeepsStream(l: Link, ticks: nat, card: byte)
    requires WellSorted(l)
    ensures WellSorted(After(l, ticks)) && Stream(After(l, ticks), card) == Stream(l, card)
  {
    if ticks > 0 {
      AfterKeepsStream(l, ticks - 1, card);
      TickKeepsStream(After(l, ticks - 1), card);
    }
  }

  function SyncBytes(n: nat): seq<byte> {
    seq(n, _ => 0xff)
  }

  /** A link on which the bytes have been written for one card, whatever the timer did meanwhile. */
  ghost predicate Extends(l': Link, l: Link, card: byte, bytes: seq<byte>) {
    && WellSorted(l')
    && (forall c: byte :: Stream(l', c) == Stream(l, c) + if c == card then bytes else [])
  }

  class Transmitter {
    const even: Ring<Word>
    const odd: Ring<Word>
    var flop: bool
    /** Everything put on the link so far, in order. */
    var sent: seq<Word>
    const voiceStatus: array<byte>

    ghost function Repr(): set<object> {
      {this, even, even.buffer, odd, odd.buffer}
    }

    ghost predicate Valid()
      reads Repr()
    {
      && even != odd && even.buffer != odd.buffer
      && even.Valid() && odd.Valid() && even.buffer.Length == odd.buffer.Length == QUEUE_SIZE
      && voiceStatus.Length == NUM_CARDS
    }

    ghost function Abs(): Link
      requires Valid()
      reads Repr()
    {
      Link(even.Contents(), odd.Contents(), flop, sent)
    }

    constructor ()
      ensures Valid() && fresh(Repr()) && fresh(voiceStatus) && Abs() == Link([], [], false, [])
    {
      even := new Ring<Word>(QUEUE_SIZE);
      odd := new Ring<Word>(QUEUE_SIZE);
      flop, sent := false, [];
      voiceStatus := new byte[NUM_CARDS];
    }

    method SendBytes()
      requires Valid()
      modifies this`flop, this`sent, even`read, odd`read
      ensures Valid() && Abs() == Tick(old(Abs()))
    {
      hide Pending, Wrap;
      flop := !flop;
      if even.Readable() > 0 && flop {
        var w := even.ImmediateRead();
        sent := sent + [w];
      }
      if odd.Readable() > 0 && !flop {
        var w := odd.ImmediateRead();
        sent := sent + [w];
      }
    }

    /** A full queue makes the writer wait for the timer. */
    method Write(card: byte, value: byte)
      requires Valid() && WellSorted(Abs())
      modifies this`flop, this`sent, even`read, even`write, even.buffer, odd`read, odd`write, odd.buffer
      ensures Valid() && Extends(Abs(), old(Abs()), card, [value])
    {
      hide Pending, Wrap, Stream, WellSorted;
      var queue := if card % 2 == 1 then odd else even;
      ghost var ticks := 0;
      while queue.Writable() == 0
        invariant Valid() && Abs() == After(old(Abs()), ticks)
        decreases |queue.Contents()|, flop == (card % 2 == 0)
      {
        SendBytes();
        ticks := ticks + 1;
      }
      ghost var waited := Abs();
      queue.Overwrite(Word(card, value));
      assert Abs() == Put(waited, Word(card, value));
      WriteExtends(old(Abs()), ticks, card, value);
    }

    /** Two bytes in a row. */
    method WriteTwo(card: byte, first: byte, second: byte)
      requires Valid() && WellSorted(Abs())
      modifies Repr()
      ensures Valid() && Extends(Abs(), old(Abs()), card, [first, second])
    {
      hide Extends, Stream, WellSorted, Pending, Wrap;
      ghost var l := Abs();
      Write(card, first);
      ghost var before := Abs();
      ExtendsIsSorted(before, l, card, [first]);
      Write(card, second);
      ExtendsTwice(l, before, Abs(), card, [first], [second]);
      assert [first] + [second] == [first, second];
    }

    method Trigger(card: byte, note: nat, velocity: byte, legato: byte)
      requires Valid() && WellSorted(Abs()) && card as int < NUM_CARDS
      requires Sendable(Command.Trigger(note, velocity, legato))
      modifies Repr(), voiceStatus
      ensures Valid() && Extends(Abs(), old(Abs()), card, Encode(Command.Trigger(note, velocity, legato)))
      ensures voiceStatus[..] == old(voiceStatus[..])[card := velocity]
    {
      hide Extends, Stream, WellSorted, Pending, Wrap;
      ghost var l := Abs();
      voiceStatus[card] := velocity;
      WriteTwo(card, 0x10 + legato, note / 256);
      ghost var before := Abs();
      ExtendsIsSorted(before, l, card, [0x10 + legato, note / 256]);
      WriteTwo(card, note % 256, 2 * velocity as int % 256);
      ExtendsTwice(l, before, Abs(), card, [0x10 + legato, note / 256], [note % 256, 2 * velocity as int % 256]);
      assert [0x10 + legato, note / 256] + [note % 256, 2 * velocity as int % 256] ==
             Encode(Command.Trigger(note, velocity, legato));
    }

    method WriteData(card: byte, dataType: byte, address: byte, value: byte)
      requires Valid() && WellSorted(Abs())
      modifies Repr()
      ensures Valid() && Extends(Abs(), old(Abs()), card, [dataType, address, value])
    {
      hide Extends, Stream, WellSorted, Pending, Wrap;
      ghost var l := Abs();
      Write(card, dataType);
      ghost var before := Abs();
      ExtendsIsSorted(before, l, card, [dataType]);
      WriteTwo(card, address, value);
      ExtendsTwice(l, before, Abs(), card, [dataType], [address, value]);
      assert [dataType] + [address, value] == [dataType, address, value];
    }

    method WriteLfo(card: byte, index: byte, value: byte)
      requires Valid() && WellSorted(Abs()) && Sendable(Command.WriteLfo(index, value))
      modifies Repr()
      ensures Valid() && Extends(Abs(), old(Abs()), card, Encode(Command.WriteLfo(index, value)))
    {
      WriteTwo(card, 0x50 + index, value);
    }

    method Release(card: byte)
      requires Valid() && WellSorted(Abs()) && card as int < NUM_CARDS
      modifies Repr(), voiceStatus
      ensures Valid() && Extends(Abs(), old(Abs()), card, Encode(Command.Release))
      ensures voiceStatus[..] == old(voiceStatus[..])[card := 0]
    {
      voiceStatus[card] := 0;
      Write(card, 0x60);
    }

    method Kill(card: byte)
      requires Valid() && WellSorted(Abs()) && card as int < NUM_CARDS
      modifies Repr(), voiceStatus
      ensures Valid() && Extends(Abs(), old(Abs()), card, Encode(Command.Kill))
      ensures voiceStatus[..] == old(voiceStatus[..])[card := 0]
    {
      voiceStatus[card] := 0;
      Write(card, 0x70);
    }

    method RetriggerEnvelope(card: byte, index: byte)
      requires Valid() && WellSorted(Abs()) && Sendable(Command.RetriggerEnvelope(index))
      modifies Repr()
      ensures Valid() && Extends(Abs(), old(Abs()), card, Encode(Command.RetriggerEnvelope(index)))
    {
      Write(card, 0x80 + index);
    }

    /** The command after which the card waits for a block. */
    method PrepareForBlockWrite(card: byte)
      requires Valid() && WellSorted(Abs())
      modifies Repr()
      ensures Valid() && Extends(Abs(), old(Abs()), card, [0x00])
    {
      Write(card, 0x00);
    }

    /** Four sync bytes, each over the idle link. */
    method Sync(card: byte)
      requires Valid() && WellSorted(Abs())
      modifies this`flop, this`sent, even`read, odd`read
      ensures Valid() && Extends(Abs(), old(Abs()), card, [0xff, 0xff, 0xff, 0xff])
      ensures Abs().even == Abs().odd == []
    {
      hide Pending, Wrap, Stream, WellSorted, Extends;
      ghost var l := Abs();
      ExtendsByNothing(l, card);
      assert SyncBytes(0) == [];
      for i := 0 to 4
        invariant Valid() && WellSorted(Abs()) && Extends(Abs(), l, card, SyncBytes(i))
        invariant i > 0 ==> Abs().even == Abs().odd == []
      {
        ghost var before := Abs();
        BlockingTransaction(card, 0xff);
        ExtendsTwice(l, before, Abs(), card, SyncBytes(i), [0xff]);
        assert SyncBytes(i) + [0xff] == SyncBytes(i + 1);
        ExtendsIsSorted(Abs(), l, card, SyncBytes(i + 1));
      }
      assert SyncBytes(4) == [0xff, 0xff, 0xff, 0xff];
    }

    /** One byte over the link, once the queues are empty. */
    method BlockingTransaction(card: byte, value: byte)
      requires Valid() && WellSorted(Abs())
      modifies this`flop, this`sent, even`read, odd`read
      ensures Valid() && Extends(Abs(), old(Abs()), card, [value])
      ensures Abs().even == Abs().odd == []
    {
      hide Pending, Wrap, Stream, WellSorted;
      FlushBuffers();
      ghost var idle := Abs();
      sent := sent + [Word(card, value)];
      SendExtends(idle, card, value);
    }

    /** Waits until the timer has emptied both queues. */
    method FlushBuffers()
      requires Valid() && WellSorted(Abs())
      modifies this`flop, this`sent, even`read, odd`read
      ensures Valid() && Abs().even == Abs().odd == [] && forall c: byte :: Stream(Abs(), c) == old(Stream(Abs(), c))
      ensures WellSorted(Abs())
    {
      hide Pending, Wrap, Stream, WellSorted;
      ghost var ticks := 0;
      while even.Readable() > 0 || odd.Readable() > 0
        invariant Valid() && Abs() == After(old(Abs()), ticks)
        decreases |even.Contents()| + |odd.Contents()|, if flop then even.Contents() != [] else odd.Contents() != []
      {
        SendBytes();
        ticks := ticks + 1;
      }
      AfterKeepsStream(old(Abs()), ticks, 0);
      forall c: byte ensures Stream(Abs(), c) == old(Stream(Abs(), c)) {
        AfterKeepsStream(old(Abs()), ticks, c);
      }
    }

    /** Size and data go over the link directly, once the queues are empty. */
    method WriteBlock(card: byte, data: seq<byte>)
      requires Valid() && WellSorted(Abs()) && |data| < 256
      modifies this`flop, this`sent, even`read, odd`read
      ensures Valid() && Extends(Abs(), old(Abs()), card, [|data| as byte] + data)
      ensures Abs().even == Abs().odd == []
    {
      hide Pending, Wrap, Stream, WellSorted;
      FlushBuffers();
      ghost var idle := Abs();
      sent := sent + [Word(card, |data|)];
      SendExtends(idle, card, |data|);
      for i := 0 to |data|
        invariant Valid() && Abs().even == Abs().odd == []
        invariant Extends(Abs(), idle, card, [|data| as byte] + data[..i])
      {
        ghost var before := Abs();
        sent := sent + [Word(card, data[i])];
        SendExtends(before, card, data[i]);
        ExtendsTwice(idle, before, Abs(), card, [|data| as byte] + data[..i], [data[i]]);
        assert [|data| as byte] + data[..i] + [data[i]] == [|data| as byte] + data[..i + 1];
      }
      assert data[..|data|] == data;
    }
  }

  /** A byte that goes over the link while nothing is queued is the next byte of its card. */
  lemma SendExtends(l: Link, card: byte, value: byte)
    requires l.even == l.odd == []
    ensures Extends(l.(sent := l.sent + [Word(card, value)]), l, card, [value])
  {
    forall c: byte
      ensures For(l.sent + [Word(card, value)], c) == For(l.sent, c) + (if c == card then [value] else [])
    {
      ForBoth(l.sent, [Word(card, value)], c);
      ForOne(Word(card, value), c);
    }
  }

  lemma WriteExtends(l: Link, ticks: nat, card: byte, value: byte)
    requires WellSorted(l)
    ensures Extends(Put(After(l, ticks), Word(card, value)), l, card, [value])
  {
    forall c: byte
      ensures Stream(Put(After(l, ticks), Word(card, value)), c) == Stream(l, c) + (if c == card then [value] else [])
    {
      AfterKeepsStream(l, ticks, c);
      PutExtendsStream(After(l, ticks), Word(card, value), c);
    }
    AfterKeepsStream(l, ticks, card);
    PutExtendsStream(After(l, ticks), Word(card, value), card);
  }

  lemma ExtendsByNothing(l: Link, card: byte)
    requires WellSorted(l)
    ensures Extends(l, l, card, [])
  {
    forall c: byte ensures Stream(l, c) == Stream(l, c) + [] {
    }
  }

  lemma ExtendsIsSorted(l': Link, l: Link, card: byte, bytes: seq<byte>)
    requires Extends(l', l, card, bytes)
    ensures WellSorted(l')
  {
  }

  lemma ExtendsTwice(l: Link, l1: Link, l2: Link, card: byte, a: seq<byte>, b: seq<byte>)
    requires Extends(l1, l, card, a) && Extends(l2, l1, card, b)
    ensures Extends(l2, l, card, a + b)
  {
    forall c: byte ensures Stream(l2, c) == Stream(l, c) + (if c == card then a + b else []) {
      if c == card {
        assert Stream(l, c) + a + b == Stream(l, c) + (a + b);
      }
    }
  }
}
