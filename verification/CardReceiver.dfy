/**
 The voice card's receiver: an interrupt-filled buffer, and the main loop that empties it.

 The class keeps the parser's position as the firmware does, in a flag, a count and an index into the
 argument bytes, and the copies of patch and settings as arrays.  Its abstraction is the `Card` of the
 protocol, and every method is tied to feeding that card one symbol after the other.

 `Process` returns the bytes it took, so that what it leaves in the buffer is known as well: it stops
 early only where a bulk command makes the card read the link, and `ReceiveBlock` is what happens then.
 */
module CardReceiver {
  import opened Bytes
  import opened Protocol
  import opened RingBuffer

  class Receiver {
    const buffer: Ring<byte>
    const arguments: array<byte>
    const patch: array<byte>
    const part: array<byte>
    const factory: seq<byte>
    var expectingCommand: bool
    var command: byte
    var dataSize: nat
    var dataIndex: nat
    /** The main loop sits inside a bulk command, reading the link. */
    var stopped: bool
    var actions: seq<Action>

    ghost predicate Valid()
      reads this, buffer, buffer.buffer
    {
      && buffer.Valid() && buffer.buffer.Length == 256
      && buffer.buffer != arguments && buffer.buffer != patch && buffer.buffer != part
      && arguments != patch && arguments != part && patch != part
      && arguments.Length == 3 && patch.Length == PATCH_SIZE == |factory| && part.Length == CARD_PART_SIZE
      && (stopped ==> expectingCommand)
      && (!expectingCommand ==>
         0x10 <= command < 0x60 && 0 < dataSize && dataIndex + dataSize == ArgumentCount(command))
    }

    /** The card's parser and its copies, as the protocol describes them. */
    ghost function Abs(): (card: Card)
      requires Valid()
      reads this, buffer, buffer.buffer, arguments, patch, part
      ensures WellFormed(card)
    {
      var parser :=
        if stopped then AwaitingSize
        else if expectingCommand then Expecting
        else Arguments(command, dataSize, arguments[..dataIndex]);
      Card(parser, patch[..], part[..], factory, actions)
    }

    constructor (factory: seq<byte>)
      requires |factory| == PATCH_SIZE
      ensures Valid() && Abs().parser == Expecting && buffer.Contents() == []
    {
      this.factory := factory;
      buffer := new Ring<byte>(256);
      arguments := new byte[3];
      patch := new byte[PATCH_SIZE];
      part := new byte[CARD_PART_SIZE];
      expectingCommand, command, dataSize, dataIndex, stopped, actions := true, 0, 0, 0, false, [];
    }

    /** The interrupt handler: it does not ask whether there is room. */
    method Receive(value: byte)
      requires Valid()
      modifies buffer`write, buffer.buffer
      ensures Valid() && Abs() == old(Abs())
      ensures |old(buffer.Contents())| < 255 ==> buffer.Contents() == old(buffer.Contents()) + [value]
    {
      buffer.Overwrite(value);
    }

    method Act(action: Action)
      modifies this`actions
      ensures actions == old(actions) + [action]
    {
      actions := actions + [action];
    }

    method DoLongCommand()
      requires Valid() && expectingCommand && !stopped && 0x10 <= command < 0x60
      modifies this`actions, patch, part
      ensures Valid() && Abs() == Protocol.DoLongCommand(old(Abs()), command, arguments[..ArgumentCount(command)])
    {
      if command < 0x20 {
        Act(NoteOn(arguments[0] as int * 256 + arguments[1] as int, arguments[2], command % 2 == 1));
      } else if command < 0x30 {
        if arguments[0] as int < PATCH_SIZE {
          patch[arguments[0]] := arguments[1];
        }
      } else if command < 0x40 {
        if arguments[0] as int < CARD_PART_SIZE {
          part[arguments[0]] := arguments[1];
        }
      } else if command < 0x50 {
        if arguments[0] as int < MOD_SRC_COUNT {
          Act(SetSource(arguments[0], arguments[1]));
        }
      } else if (command % 16) as int < NUM_LFOS {
        Act(SetSource(MOD_SRC_LFO_1 + command % 16, arguments[0]));
      }
    }

    method DoShortCommand(command: byte)
      requires Valid() && expectingCommand && !stopped
      modifies this`actions, this`stopped, patch, part
      ensures Valid() && Abs() == Protocol.DoShortCommand(old(Abs()), command)
    {
      if command == 0x00 {
        stopped := true;
      } else if command == 0x60 {
        Act(NoteReleased);
      } else if command == 0x70 {
        Act(NoteKilled);
      } else if 0x80 <= command < 0x83 {
        Act(EnvelopeTriggered(command % 16));
      } else if command == 0xf8 {
        Act(ControllersReset);
      } else if command == 0xf9 {
        forall i | 0 <= i < PATCH_SIZE {
          patch[i] := factory[i];
        }
        part[0] := 127;
        part[6] := 0;
        part[5] := 0;
        Act(Reinitialized);
      }
    }

    method ProcessByte(value: byte)
      requires Valid() && !stopped
      modifies this, arguments, patch, part
      ensures Valid() && Abs() == Feed(old(Abs()), Buffered(value))
    {
      hide Protocol.DoLongCommand, Protocol.DoShortCommand, Pending, Wrap, IsPowerOfTwo, Ring.Valid;
      if expectingCommand {
        command := value;
        dataIndex := 0;
        dataSize := ArgumentCount(command);
        if dataSize > 0 {
          expectingCommand := false;
        } else {
          DoShortCommand(command);
        }
      } else {
        arguments[dataIndex] := value;
        dataIndex := dataIndex + 1;
        dataSize := dataSize - 1;
        if dataSize == 0 {
          expectingCommand := true;
          assert arguments[..ArgumentCount(command)] == old(arguments[..dataIndex]) + [value];
          assert Abs() == old(Abs()).(parser := Expecting);
          LongIgnoresParser(old(Abs()), command, arguments[..ArgumentCount(command)]);
          DoLongCommand();
        }
      }
    }

    method ProcessNext()
      requires Valid() && !stopped && buffer.Contents() != []
      modifies this, buffer`read, arguments, patch, part
      ensures Valid() && buffer.Contents() == old(buffer.Contents())[1..]
      ensures Abs() == Feed(old(Abs()), Buffered(old(buffer.Contents())[0]))
    {
      hide Pending, Wrap, Feed;
      var value := buffer.ImmediateRead();
      ProcessByte(value);
    }

    /** Empties the buffer, unless a bulk command sends the card to the link. */
    method Process() returns (ghost taken: seq<byte>)
      requires Valid() && !stopped
      modifies this, buffer`read, arguments, patch, part
      ensures Valid()
      ensures old(buffer.Contents()) == taken + buffer.Contents()
      ensures Abs() == FeedAll(old(Abs()), Buffer(taken))
      ensures buffer.Contents() == [] || Abs().parser == AwaitingSize
    {
      hide *;
      Opened();
      taken := [];
      ghost var start, waiting := Abs(), buffer.Contents();
      FedNothing(start);
      while buffer.Readable() > 0 && !stopped
        invariant Valid() && buffer.Valid() && (stopped <==> Abs().parser == AwaitingSize)
        invariant waiting == taken + buffer.Contents()
        invariant Abs() == FeedAll(start, Buffer(taken))
        decreases |buffer.Contents()|
      {
        ghost var value := buffer.Contents()[0];
        ProcessNext();
        Opened();
        FeedNext(start, taken, value);
        taken := taken + [value];
      }
    }

    lemma Opened()
      requires Valid()
      ensures buffer.Valid() && WellFormed(Abs()) && (stopped <==> Abs().parser == AwaitingSize)
    {
    }

    /** The receive loop of the bulk command. */
    method ReceiveBlock(size: byte, data: seq<byte>)
      requires Valid() && stopped && |data| == size as int
      modifies this`stopped, patch
      ensures Valid() && Abs() == FeedAll(old(Abs()), Directly([size] + data))
    {
      for i := 0 to size
        invariant Valid() && stopped
        invariant BlockUpTo(old(Abs()), size, data, i as int) == Abs().patch
      {
        if i as int < PATCH_SIZE {
          patch[i] := data[i];
        }
      }
      stopped := false;
      BlockIsFed(old(Abs()), size, data);
    }
  }

  lemma LongIgnoresParser(card: Card, command: byte, arguments: seq<byte>)
    requires 0x10 <= command < 0x60 && |arguments| == ArgumentCount(command)
    ensures Protocol.DoLongCommand(card.(parser := Expecting), command, arguments) ==
            Protocol.DoLongCommand(card, command, arguments).(parser := Expecting)
  {
  }

  lemma FedNothing(card: Card)
    requires WellFormed(card)
    ensures FeedAll(card, Buffer([])) == card
  {
  }

  lemma FeedNext(card: Card, taken: seq<byte>, value: byte)
    requires WellFormed(card)
    ensures FeedAll(card, Buffer(taken + [value])) == Feed(FeedAll(card, Buffer(taken)), Buffered(value))
  {
    assert Buffer(taken + [value]) == Buffer(taken) + [Buffered(value)];
    FeedInTwo(card, Buffer(taken), [Buffered(value)]);
    FeedOne(FeedAll(card, Buffer(taken)), Buffered(value));
  }

  /** The patch after the first n bytes of a block. */
  function BlockUpTo(card: Card, size: byte, data: seq<byte>, n: nat): (patch: seq<byte>)
    requires n <= |data| == size as int
    ensures |patch| == |card.patch|
  {
    if n == 0 then card.patch else SetData(BlockUpTo(card, size, data, n - 1), n - 1, data[n - 1])
  }

  lemma {:induction false} BlockFedFrom(card: Card, size: byte, data: seq<byte>, n: nat)
    requires WellFormed(card) && n < |data| == size as int && card.parser == AwaitingSize
    ensures FeedAll(card.(parser := InBlock(size, n), patch := BlockUpTo(card, size, data, n)), Directly(data[n..])) ==
            card.(parser := Expecting, patch := BlockUpTo(card, size, data, |data|))
    decreases |data| - n
  {
    var symbols := Directly(data[n..]);
    assert symbols[1..] == Directly(data[n + 1..]);
    if n + 1 < |data| {
      BlockFedFrom(card, size, data, n + 1);
    } else {
      assert symbols[1..] == [];
    }
  }

  lemma BlockIsFed(card: Card, size: byte, data: seq<byte>)
    requires WellFormed(card) && |data| == size as int && card.parser == AwaitingSize
    ensures FeedAll(card, Directly([size] + data)) ==
            card.(parser := Expecting, patch := BlockUpTo(card, size, data, |data|))
  {
    var symbols := Directly([size] + data);
    assert symbols[1..] == Directly(data[0..]);
    if size > 0 {
      BlockFedFrom(card, size, data, 0);
    } else {
      assert symbols[1..] == [];
    }
  }
}
