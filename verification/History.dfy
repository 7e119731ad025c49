/**
 What is left of a run of operations: every byte of a part is the last one written to it, every part owns the
 cards that it was last given, and every card has been told what the operations meant for it.

 None of this looks at how an operation is carried out, nor at which interrupts and cards ran in between.
 */
module History {
  import opened Bytes
  import opened Protocol
  import opened CardTransmitter
  import opened Replica
  import Ownership

  // ---- What operations are for ----

  /** The operation gives the byte at this address of the part a value. */
  predicate WritesTo(op: Operation, part: nat, address: nat) {
    match op
    case SetValue(n, a, _) => n == part && a as int == address
    case LoadPatch(n, patch) => n == part && address < PATCH_SIZE == |patch|
    case LoadSettings(n, settings) => n == part && PATCH_SIZE <= address < PART_SIZE == PATCH_SIZE + |settings|
    case _ => false
  }

  function Written(op: Operation, part: nat, address: nat): byte
    requires WritesTo(op, part, address)
  {
    match op
    case SetValue(_, _, value) => value
    case LoadPatch(_, patch) => patch[address]
    case LoadSettings(_, settings) => settings[address - PATCH_SIZE]
  }

  /** The last value that the steps wrote to the byte, or the one it had before. */
  function LastWritten(steps: seq<Step>, part: nat, address: nat, before: byte): byte {
    if steps == [] then before
    else
      var last := steps[|steps| - 1];
      if last.Begin? && WritesTo(last.op, part, address) then Written(last.op, part, address)
      else LastWritten(steps[..|steps| - 1], part, address, before)
  }

  /** The mask that the steps last gave the part; no card at first. */
  function LastMask(steps: seq<Step>, part: nat): byte {
    if steps == [] then 0
    else
      var last := steps[|steps| - 1];
      if last.Begin? && last.op.AssignVoices? && part < |last.op.masks| then last.op.masks[part]
      else LastMask(steps[..|steps| - 1], part)
  }

  /** What the operations of the steps tell a card, each by the parts it finds. */
  ghost function AllTold(states: seq<System>, steps: seq<Step>, c: byte): seq<Action>
    requires |states| >= |steps|
  {
    if steps == [] then []
    else
      var n := |steps| - 1;
      AllTold(states, steps[..n], c) + if steps[n].Begin? then Told(states[n].parts, steps[n].op, c) else []
  }

  /** The mask gives away this card. */
  predicate IsGiven(mask: byte, c: byte) {
    c as int < NUM_CARDS && Ownership.Claims(mask, c)
  }

  // ---- One operation ----

  /** An operation changes the bytes it writes to, the owners if it gives out cards, and nothing else of the parts. */
  lemma OperationChangesParts(s: System, op: Operation, s': System, part: nat)
    requires Next(s, Begin(op), s') && part < NUM_PARTS
    ensures |s.parts| == NUM_PARTS == |s'.parts| && |s.parts[part].bytes| == PART_SIZE == |s'.parts[part].bytes|
    ensures forall address: nat :: address < PART_SIZE ==>
              s'.parts[part].bytes[address] ==
              if WritesTo(op, part, address) then Written(op, part, address) else s.parts[part].bytes[address]
    ensures if op.AssignVoices? then
              && |op.masks| == NUM_PARTS
              && forall c: byte :: c in s'.parts[part].cards <==> IsGiven(op.masks[part], c)
            else s'.parts[part].cards == s.parts[part].cards
  {
    hide Ownership.Claims, Ownership.ConflictFree, Protocol.WellFormed, Encode, TouchPatch, TouchFrom, ModeItems;
    hide SetValueItems, AssignAllItems, QueueBytes;
  }

  /** The mode that a part's allocators are set up for follows the byte that says it, but for a rewritten value. */
  lemma OperationChangesMode(s: System, op: Operation, s': System, part: nat)
    requires Next(s, Begin(op), s') && part < NUM_PARTS
    ensures |s.parts| == NUM_PARTS == |s'.parts| && |s.parts[part].bytes| == PART_SIZE == |s'.parts[part].bytes|
    ensures var before, after := s.parts[part], s'.parts[part];
            && (before.mode == before.bytes[MODE_ADDRESS] ==> after.mode == after.bytes[MODE_ADDRESS])
            && (after.mode != before.mode ==> after.mode == after.bytes[MODE_ADDRESS])
            && (op.AssignVoices? || (op.LoadSettings? && op.part == part) ==> after.mode == after.bytes[MODE_ADDRESS])
  {
    hide Ownership.CardsOf, Ownership.ConflictFree, Protocol.WellFormed, Encode, TouchPatch, TouchFrom, ModeItems;
    hide SetValueItems, AssignAllItems, QueueBytes;
  }

  /** What the cards hear of it. */
  lemma OperationTells(s: System, op: Operation, s': System, c: byte)
    requires Inv(s) && Next(s, Begin(op), s') && c as int < NUM_CARDS
    ensures SystemShape(s) && SystemShape(s')
    ensures Settled(s', c).actions == Settled(s, c).actions + Told(s.parts, op, c)
  {
    hide *;
    InvHolds(s, c);
    Begun(s, op, s');
    BeginsIdle(s, op, s');
    StartKeepsShape(s, op);
    StartKeepsAgreement(s, op, Settled(s, c), c);
    BeginSettles(s, s', c);
  }

  lemma InvHolds(s: System, c: byte)
    requires Inv(s) && c as int < NUM_CARDS
    ensures SystemShape(s) && CardsValid(s.parts) && Sorted(s)
    ensures Agrees(s.parts, Settled(s, c), c)
  {
    hide Settled, Agrees, CardsValid, Protocol.WellFormed;
  }

  lemma BeginsIdle(s: System, op: Operation, s': System)
    requires Next(s, Begin(op), s')
    ensures s.todo == []
  {
    hide Start, Allowed;
  }

  // ---- Every run ----

  lemma ShapeOf(states: seq<System>, steps: seq<Step>, n: nat)
    requires IsRun(states, steps) && n <= |steps|
    ensures |states| == |steps| + 1 && Inv(states[n]) && SystemShape(states[n]) && Sorted(states[n])
    ensures |states[n].parts| == NUM_PARTS && |states[n].cards| == NUM_CARDS > 0
    ensures forall i :: 0 <= i < NUM_PARTS ==> |states[n].parts[i].bytes| == PART_SIZE
  {
    RunKeepsInv(states, steps, n);
    InvShape(states[n]);
    hide Inv, Init, Next, IsRun, CardsValid, Sorted, Protocol.WellFormed;
  }

  lemma StepOf(states: seq<System>, steps: seq<Step>, n: nat)
    requires IsRun(states, steps) && 0 < n <= |steps|
    ensures |states| == |steps| + 1 && Next(states[n - 1], steps[n - 1], states[n])
    ensures steps[..n][..n - 1] == steps[..n - 1] && steps[..n][n - 1] == steps[n - 1]
  {
    hide Next, Init;
  }

  lemma WrittenOneMore(steps: seq<Step>, part: nat, address: nat, before: byte)
    requires steps != []
    ensures var n := |steps| - 1;
            LastWritten(steps, part, address, before) ==
            if steps[n].Begin? && WritesTo(steps[n].op, part, address) then Written(steps[n].op, part, address)
            else LastWritten(steps[..n], part, address, before)
  {
  }

  lemma NothingYet(steps: seq<Step>, states: seq<System>, part: nat, address: nat, before: byte, c: byte)
    requires |states| >= |steps|
    ensures LastWritten(steps[..0], part, address, before) == before && LastMask(steps[..0], part) == 0
    ensures AllTold(states, steps[..0], c) == [] && !IsGiven(0, c)
  {
    Ownership.ClaimsNothing(c as nat);
  }

  /** Every byte of a part is the last one written to it. */
  lemma {:induction false} BytesAreLastWritten(states: seq<System>, steps: seq<Step>, n: nat, part: nat, address: nat)
    requires IsRun(states, steps) && n <= |steps| && part < NUM_PARTS && address < PART_SIZE
    ensures |states| == |steps| + 1 && |states[0].parts| == NUM_PARTS == |states[n].parts|
    ensures |states[0].parts[part].bytes| == PART_SIZE == |states[n].parts[part].bytes|
    ensures states[n].parts[part].bytes[address] ==
            LastWritten(steps[..n], part, address, states[0].parts[part].bytes[address])
  {
    hide *;
    ShapeOf(states, steps, 0);
    ShapeOf(states, steps, n);
    NothingYet(steps, states, part, address, states[0].parts[part].bytes[address], 0);
    if n > 0 {
      BytesAreLastWritten(states, steps, n - 1, part, address);
      StepOf(states, steps, n);
      ShapeOf(states, steps, n - 1);
      WrittenOneMore(steps[..n], part, address, states[0].parts[part].bytes[address]);
      if steps[n - 1].Begin? {
        OperationChangesParts(states[n - 1], steps[n - 1].op, states[n], part);
      } else {
        OtherStep(states[n - 1], steps[n - 1], states[n], 0);
      }
    }
  }

  /** Every other step leaves the parts alone, and what a card will have been told. */
  lemma OtherStep(s: System, step: Step, s': System, c: byte)
    requires Inv(s) && Inv(s') && Next(s, step, s') && !step.Begin? && c as int < NUM_CARDS
    ensures SystemShape(s) && SystemShape(s') && s'.parts == s.parts && Settled(s', c) == Settled(s, c)
  {
    hide *;
    InvHolds(s, c);
    InvHolds(s', c);
    SortedIs(s);
    StepKeepsSettled(s, step, s', c);
  }

  lemma SortedIs(s: System)
    requires Sorted(s)
    ensures WellSorted(Link(s.even, s.odd, s.flop, []))
  {
  }

  lemma MaskOneMore(steps: seq<Step>, part: nat)
    requires steps != []
    ensures var last := steps[|steps| - 1];
            LastMask(steps, part) ==
            if last.Begin? && last.op.AssignVoices? && part < |last.op.masks| then last.op.masks[part]
            else LastMask(steps[..|steps| - 1], part)
  {
  }

  lemma NoCardsAtFirst(states: seq<System>, steps: seq<Step>, part: nat, c: byte)
    requires IsRun(states, steps) && part < NUM_PARTS
    ensures |states[0].parts| == NUM_PARTS && states[0].parts[part].cards == []
  {
    hide Next;
  }

  /** Every part owns the cards of the last mask it was given. */
  lemma {:induction false} CardsAreLastGiven(states: seq<System>, steps: seq<Step>, n: nat, part: nat, c: byte)
    requires IsRun(states, steps) && n <= |steps| && part < NUM_PARTS
    ensures |states| == |steps| + 1 && |states[n].parts| == NUM_PARTS
    ensures c in states[n].parts[part].cards <==> IsGiven(LastMask(steps[..n], part), c)
  {
    hide *;
    ShapeOf(states, steps, n);
    NothingYet(steps, states, part, 0, 0, c);
    NoCardsAtFirst(states, steps, part, c);
    if n > 0 {
      CardsAreLastGiven(states, steps, n - 1, part, c);
      StepOf(states, steps, n);
      ShapeOf(states, steps, n - 1);
      MaskOneMore(steps[..n], part);
      if steps[n - 1].Begin? {
        OperationChangesParts(states[n - 1], steps[n - 1].op, states[n], part);
      } else {
        OtherStep(states[n - 1], steps[n - 1], states[n], 0);
      }
    }
  }

  lemma ToldOneMore(states: seq<System>, steps: seq<Step>, n: nat, c: byte)
    requires 0 < n <= |steps| <= |states|
    ensures AllTold(states, steps[..n], c) ==
            AllTold(states, steps[..n - 1], c) +
            if steps[n - 1].Begin? then Told(states[n - 1].parts, steps[n - 1].op, c) else []
  {
    hide Told;
    assert steps[..n][..n - 1] == steps[..n - 1];
  }

  lemma SilentAtFirst(states: seq<System>, steps: seq<Step>, c: byte)
    requires IsRun(states, steps) && c as int < NUM_CARDS
    ensures SystemShape(states[0]) && Settled(states[0], c) == states[0].cards[c]
  {
    hide Next, Protocol.WellFormed;
    assert InFlight(states[0], c) == [];
  }

  /** With what is still on its way, every card has been told what the operations meant for it, in their order. */
  lemma {:induction false} CardsAreTold(states: seq<System>, steps: seq<Step>, n: nat, c: byte)
    requires IsRun(states, steps) && n <= |steps| && c as int < NUM_CARDS
    ensures |states| == |steps| + 1 && SystemShape(states[n]) && |states[0].cards| == NUM_CARDS
    ensures Settled(states[n], c).actions == states[0].cards[c].actions + AllTold(states, steps[..n], c)
  {
    hide *;
    ShapeOf(states, steps, 0);
    ShapeOf(states, steps, n);
    NothingYet(steps, states, 0, 0, 0, c);
    SilentAtFirst(states, steps, c);
    if n > 0 {
      CardsAreTold(states, steps, n - 1, c);
      StepOf(states, steps, n);
      ShapeOf(states, steps, n - 1);
      ToldOneMore(states, steps, n, c);
      if steps[n - 1].Begin? {
        OperationTells(states[n - 1], steps[n - 1].op, states[n], c);
      } else {
        OtherStep(states[n - 1], steps[n - 1], states[n], c);
      }
    } else {
      assert states[0].cards[c].actions + [] == states[0].cards[c].actions;
    }
  }

  lemma NothingInFlight(s: System, c: byte)
    requires SystemShape(s) && Drained(s) && c as int < NUM_CARDS
    ensures |s.cards| == NUM_CARDS && Settled(s, c) == s.cards[c]
  {
    hide Protocol.WellFormed;
    assert InFlight(s, c) == [];
  }

  /** Once everything has drained, a card has been told just that. */
  lemma DrainedIsTold(states: seq<System>, steps: seq<Step>, n: nat, c: byte)
    requires IsRun(states, steps) && n <= |steps| && c as int < NUM_CARDS && Drained(states[n])
    ensures |states| == |steps| + 1 && |states[0].cards| == NUM_CARDS == |states[n].cards|
    ensures states[n].cards[c].actions == states[0].cards[c].actions + AllTold(states, steps[..n], c)
  {
    hide *;
    CardsAreTold(states, steps, n, c);
    NothingInFlight(states[n], c);
  }

  /** And a card that a part was last given holds the last values written to that part. */
  lemma DrainedIsLastWritten(states: seq<System>, steps: seq<Step>, n: nat, part: nat, c: byte, address: nat)
    requires IsRun(states, steps) && n <= |steps| && Drained(states[n])
    requires part < NUM_PARTS && IsGiven(LastMask(steps[..n], part), c) && address < PATCH_SIZE + CARD_PART_SIZE
    ensures |states| == |steps| + 1 && |states[n].cards| == NUM_CARDS && c as int < NUM_CARDS
    ensures |states[0].parts| == NUM_PARTS && |states[0].parts[part].bytes| == PART_SIZE
    ensures |states[n].cards[c].patch| == PATCH_SIZE && |states[n].cards[c].part| == CARD_PART_SIZE
    ensures (if address < PATCH_SIZE then states[n].cards[c].patch[address]
             else states[n].cards[c].part[address - PATCH_SIZE]) ==
            LastWritten(steps[..n], part, address, states[0].parts[part].bytes[address])
  {
    hide *;
    ShapeOf(states, steps, n);
    CardsAreLastGiven(states, steps, n, part, c);
    Addresses(states[n].parts[part], address);
    BytesAreLastWritten(states, steps, n, part, address);
    DrainedMeansEqual(states, steps, n, part, c);
  }

  lemma Addresses(p: Part, address: nat)
    requires |p.bytes| == PART_SIZE && address < PATCH_SIZE + CARD_PART_SIZE
    ensures address < PART_SIZE && |PatchOf(p)| == PATCH_SIZE && |SettingsOf(p)| == CARD_PART_SIZE
    ensures p.bytes[address] ==
            if address < PATCH_SIZE then PatchOf(p)[address] else SettingsOf(p)[address - PATCH_SIZE]
  {
  }
}
