/**
 Which part owns which voice card.  Every part has a bit mask of the cards it claims; conflicting
 claims are settled in favour of the part with the lower number.
 */
module Ownership {
  import opened Bytes

  const NUM_PARTS := 6
  const NUM_VOICES := 6
  /** The `-1` that excludes no part. */
  const NOBODY := 255

  // ---- Bytes as sets of bits ----

  /** Bit number `card` of the mask is set. */
  predicate Claims(mask: byte, card: nat)
    decreases card
  {
    if card == 0 then mask % 2 == 1 else Claims(mask / 2, card - 1)
  }

  /** `a & byteInverse(b)`. */
  function AndNot(a: byte, b: byte): (r: byte)
    ensures r <= a
    decreases a
  {
    if a == 0 then 0 else (if a % 2 == 1 && b % 2 == 0 then 1 else 0) + 2 * AndNot(a / 2, b / 2)
  }

  /** `1 << i`. */
  function Bit(i: nat): (b: byte)
    requires i < 8
    ensures b > 0 && (i < 7 ==> 2 * b < 256)
  {
    if i == 0 then 1 else if i == 1 then 2 else if i == 2 then 4 else if i == 3 then 8
    else if i == 4 then 16 else if i == 5 then 32 else if i == 6 then 64 else 128
  }

  lemma {:induction false} ClaimsNothing(card: nat)
    ensures !Claims(0, card)
  {
    if card > 0 {
      ClaimsNothing(card - 1);
    }
  }

  /** The bits of a number below `2 * top`, and those of `2 * top - 1`, are the ones up to `top`. */
  lemma {:induction false} BitsInRange(mask: byte, top: nat, card: nat)
    requires top < 8 && mask as int < 2 * Bit(top) as int
    ensures Claims(mask, card) ==> card <= top
    ensures mask as int == 2 * Bit(top) as int - 1 && card <= top ==> Claims(mask, card)
    decreases top
  {
    if top == 0 {
      if card > 0 {
        ClaimsNothing(card - 1);
      }
    } else if card > 0 {
      assert Bit(top) == 2 * Bit(top - 1);
      BitsInRange(mask / 2, top - 1, card - 1);
    }
  }

  lemma {:induction false} ClaimsAnd(a: byte, b: byte, card: nat)
    ensures Claims(And(a, b), card) <==> Claims(a, card) && Claims(b, card)
    ensures Claims(AndNot(a, b), card) <==> Claims(a, card) && !Claims(b, card)
    decreases card
  {
    if a == 0 {
      ClaimsNothing(card);
    } else if card > 0 {
      ClaimsAnd(a / 2, b / 2, card - 1);
      assert And(a, b) / 2 == And(a / 2, b / 2) && AndNot(a, b) / 2 == AndNot(a / 2, b / 2);
    }
  }

  /** The firmware's test of a mask, with a one that it shifts along. */
  lemma {:induction false} BitTest(mask: byte, card: nat)
    requires card < 8
    ensures And(mask, Bit(card)) != 0 <==> Claims(mask, card)
    decreases card
  {
    if mask == 0 {
      ClaimsNothing(card);
    } else if card > 0 {
      assert Bit(card) % 2 == 0 && Bit(card) / 2 == Bit(card - 1);
      BitTest(mask / 2, card - 1);
    } else {
      AndZero(mask / 2);
    }
  }

  lemma {:induction false} AndZero(a: byte)
    ensures And(a, 0) == 0
  {
    if a > 0 {
      AndZero(a / 2);
    }
  }

  /** A mask is the set of cards it claims. */
  lemma {:induction false} SameClaims(a: byte, b: byte)
    requires forall card: nat :: Claims(a, card) <==> Claims(b, card)
    ensures a == b
    decreases a + b
  {
    assert Claims(a, 0) <==> Claims(b, 0);
    if a + b > 0 {
      forall card: nat ensures Claims(a / 2, card) <==> Claims(b / 2, card) {
        assert Claims(a, card + 1) <==> Claims(b, card + 1);
      }
      SameClaims(a / 2, b / 2);
    }
  }

  // ---- The settlement ----

  /** Some part below `i`, other than the excluded one, claims the card. */
  predicate ClaimedBelow(masks: seq<byte>, excluded: nat, i: nat, card: nat)
    requires i <= |masks|
  {
    exists j :: 0 <= j < i && j != excluded && Claims(masks[j], card)
  }

  /** The settlement: a card goes to the first part that claims it; the excluded part is left as it is. */
  ghost predicate Settles(masks: seq<byte>, excluded: nat, solved: seq<byte>) {
    && |solved| == |masks|
    && (forall i, card: nat :: 0 <= i < |masks| && i != excluded ==>
          (Claims(solved[i], card) <==> Claims(masks[i], card) && !ClaimedBelow(masks, excluded, i, card)))
    && (excluded < |masks| ==> solved[excluded] == masks[excluded])
  }

  ghost predicate ConflictFree(masks: seq<byte>) {
    forall i, j, card: nat :: 0 <= i < j < |masks| && Claims(masks[i], card) ==> !Claims(masks[j], card)
  }

  lemma SettlementIsUnique(masks: seq<byte>, excluded: nat, a: seq<byte>, b: seq<byte>)
    requires Settles(masks, excluded, a) && Settles(masks, excluded, b)
    ensures a == b
  {
    forall i | 0 <= i < |masks| ensures a[i] == b[i] {
      if i != excluded {
        SameClaims(a[i], b[i]);
      }
    }
  }

  /** Settling takes cards away only to resolve a conflict, and never strands a claimed card. */
  lemma SettlementIsFair(masks: seq<byte>, solved: seq<byte>)
    requires Settles(masks, NOBODY, solved) && |masks| == NUM_PARTS
    ensures ConflictFree(solved)
    ensures forall i :: 0 <= i < |masks| ==> And(solved[i], masks[i]) == solved[i]
    ensures forall card: nat :: ClaimedBelow(masks, NOBODY, |masks|, card) <==>
            ClaimedBelow(solved, NOBODY, |solved|, card)
    ensures solved == masks <==> ConflictFree(masks)
    ensures Settles(solved, NOBODY, solved)
  {
    forall i | 0 <= i < |masks| ensures And(solved[i], masks[i]) == solved[i] {
      forall card: nat ensures Claims(And(solved[i], masks[i]), card) <==> Claims(solved[i], card) {
        ClaimsAnd(solved[i], masks[i], card);
      }
      SameClaims(And(solved[i], masks[i]), solved[i]);
    }
    forall card: nat, i | 0 <= i < |masks| && Claims(masks[i], card)
      ensures ClaimedBelow(solved, NOBODY, |solved|, card)
    {
      var j := FirstClaimant(masks, card, i);
      assert Claims(solved[j], card);
    }
    if ConflictFree(masks) {
      forall i | 0 <= i < |masks| ensures solved[i] == masks[i] {
        SameClaims(solved[i], masks[i]);
      }
    }
  }

  lemma {:induction false} FirstClaimant(masks: seq<byte>, card: nat, i: nat) returns (j: nat)
    requires i < |masks| && Claims(masks[i], card)
    ensures j <= i && Claims(masks[j], card) && forall k :: 0 <= k < j ==> !Claims(masks[k], card)
  {
    if k :| 0 <= k < i && Claims(masks[k], card) {
      j := FirstClaimant(masks, card, k);
    } else {
      j := i;
    }
  }

  /** The voice assigner's way of giving a part what the others have left over. */
  lemma LeftoversAreConflictFree(masks: seq<byte>, part: nat, solved: seq<byte>, available: byte, wanted: byte)
    requires part < |masks| == NUM_PARTS && Settles(masks, part, solved)
    requires forall card: nat :: card < 8 ==> (Claims(available, card) <==> !ClaimedBelow(masks, part, |masks|, card))
    ensures ConflictFree(solved[part := And(wanted, available)])
  {
    var final := solved[part := And(wanted, available)];
    forall i, j, card: nat | 0 <= i < j < |final| && Claims(final[i], card) ensures !Claims(final[j], card) {
      ClaimsAnd(wanted, available, card);
      BitsInRange(available, 7, card);
    }
  }

  /** The cards of a mask, in ascending order. */
  function CardsOf(mask: byte, below: nat := NUM_VOICES): (cards: seq<byte>)
    requires below <= NUM_VOICES
    ensures |cards| <= below
    ensures forall card: byte :: card in cards <==> card as int < below && Claims(mask, card)
    decreases below
  {
    if below == 0 then []
    else CardsOf(mask, below - 1) + if Claims(mask, below - 1) then [(below - 1) as byte] else []
  }

  /** The list grows with the mask that the firmware shifts along. */
  lemma NextCard(mask: byte, i: nat)
    requires i < NUM_VOICES
    ensures CardsOf(mask, i + 1) == CardsOf(mask, i) + if And(mask, Bit(i)) != 0 then [i as byte] else []
    ensures Bit(i + 1) == 2 * Bit(i)
  {
    BitTest(mask, i);
  }

  lemma {:induction false} CardsAreDistinct(mask: byte, below: nat)
    requires below <= NUM_VOICES
    ensures Distinct(CardsOf(mask, below))
    ensures forall i, j :: 0 <= i < j < |CardsOf(mask, below)| ==> CardsOf(mask, below)[i] < CardsOf(mask, below)[j]
  {
    if below > 0 {
      CardsAreDistinct(mask, below - 1);
      var lower := CardsOf(mask, below - 1);
      forall i | 0 <= i < |lower| ensures lower[i] as int < below - 1 {
        assert lower[i] in lower;
      }
    }
  }

  /** Conflict-free parts share no card. */
  lemma NoSharedCard(masks: seq<byte>, i: nat, j: nat, card: byte)
    requires ConflictFree(masks) && i < |masks| && j < |masks| && i != j
    ensures !(card in CardsOf(masks[i]) && card in CardsOf(masks[j]))
  {
    var lo, hi := if i < j then i else j, if i < j then j else i;
    assert Claims(masks[lo], card) ==> !Claims(masks[hi], card);
  }

  /** The masks and the leftovers after the first `n` parts had their turn. */
  function SolveUpTo(masks: seq<byte>, excluded: nat, n: nat): (r: (seq<byte>, byte))
    requires n <= |masks|
    ensures |r.0| == |masks|
  {
    if n == 0 then (masks, 0xff)
    else
      var (solved, available) := SolveUpTo(masks, excluded, n - 1);
      if n - 1 == excluded then (solved, available)
      else
        var granted := And(solved[n - 1], available);
        (solved[n - 1 := granted], AndNot(available, granted))
  }

  lemma ClaimedByOneMore(masks: seq<byte>, excluded: nat, n: nat, card: nat)
    requires 0 < n <= |masks|
    ensures ClaimedBelow(masks, excluded, n, card) <==>
            ClaimedBelow(masks, excluded, n - 1, card) || (n - 1 != excluded && Claims(masks[n - 1], card))
  {
    hide Claims;
  }

  /** What the first `n` parts were granted of one card, and whether it is left over. */
  ghost predicate Granted(masks: seq<byte>, excluded: nat, n: nat, solved: seq<byte>, available: byte, card: nat)
    requires n <= |masks| == |solved|
  {
    && (Claims(available, card) <==> !ClaimedBelow(masks, excluded, n, card))
    && (forall i :: n <= i < |masks| || i == excluded < |masks| ==> solved[i] == masks[i])
    && (forall i :: 0 <= i < n && i != excluded ==>
          (Claims(solved[i], card) <==> Claims(masks[i], card) && !ClaimedBelow(masks, excluded, i, card)))
  }

  lemma GrantOneMore(masks: seq<byte>, excluded: nat, n: nat, solved: seq<byte>, available: byte, card: nat)
    requires n < |masks| == |solved| && n != excluded && Granted(masks, excluded, n, solved, available, card)
    ensures var granted := And(solved[n], available);
            Granted(masks, excluded, n + 1, solved[n := granted], AndNot(available, granted), card)
  {
    ClaimsAnd(solved[n], available, card);
    ClaimsAnd(available, And(solved[n], available), card);
    ClaimedByOneMore(masks, excluded, n + 1, card);
    hide Claims, And, AndNot, ClaimedBelow;
    var solved' := solved[n := And(solved[n], available)];
    forall i | 0 <= i < n + 1 && i != excluded
      ensures Claims(solved'[i], card) <==> Claims(masks[i], card) && !ClaimedBelow(masks, excluded, i, card)
    {
      if i < n {
        assert solved'[i] == solved[i];
      }
    }
  }

  lemma AllAvailable(masks: seq<byte>, excluded: nat, card: nat)
    requires card < 8
    ensures SolveUpTo(masks, excluded, 0) == (masks, 0xff)
    ensures Granted(masks, excluded, 0, masks, 0xff, card)
  {
    hide Claims;
    BitsInRange(0xff, 7, card);
  }

  lemma GrantExcluded(masks: seq<byte>, excluded: nat, n: nat, solved: seq<byte>, available: byte, card: nat)
    requires n < |masks| == |solved| && n == excluded && Granted(masks, excluded, n, solved, available, card)
    ensures Granted(masks, excluded, n + 1, solved, available, card)
  {
    hide Claims;
    ClaimedByOneMore(masks, excluded, n + 1, card);
  }

  lemma SolveOneMore(masks: seq<byte>, excluded: nat, n: nat)
    requires 0 < n <= |masks|
    ensures var (solved, available) := SolveUpTo(masks, excluded, n - 1);
            var granted := And(solved[n - 1], available);
            SolveUpTo(masks, excluded, n) ==
            if n - 1 == excluded then (solved, available) else (solved[n - 1 := granted], AndNot(available, granted))
  {
    hide And, AndNot;
  }

  lemma {:induction false} SolveUpToGrants(masks: seq<byte>, excluded: nat, n: nat, card: nat)
    requires n <= |masks| && card < 8
    ensures Granted(masks, excluded, n, SolveUpTo(masks, excluded, n).0, SolveUpTo(masks, excluded, n).1, card)
  {
    hide *;
    if n == 0 {
      AllAvailable(masks, excluded, card);
    } else {
      SolveUpToGrants(masks, excluded, n - 1, card);
      SolveOneMore(masks, excluded, n);
      var (solved, available) := SolveUpTo(masks, excluded, n - 1);
      if n - 1 == excluded {
        GrantExcluded(masks, excluded, n - 1, solved, available, card);
      } else {
        GrantOneMore(masks, excluded, n - 1, solved, available, card);
      }
    }
  }

  /** One pass over the parts is the settlement. */
  lemma SolveSettles(masks: seq<byte>, excluded: nat)
    ensures Settles(masks, excluded, SolveUpTo(masks, excluded, |masks|).0)
    ensures forall card: nat :: card < 8 ==>
              (Claims(SolveUpTo(masks, excluded, |masks|).1, card) <==> !ClaimedBelow(masks, excluded, |masks|, card))
  {
    hide Claims, ClaimedBelow, SolveUpTo;
    var (solved, available) := SolveUpTo(masks, excluded, |masks|);
    SolveUpToGrants(masks, excluded, |masks|, 0);
    forall card: nat | card < 8 ensures Claims(available, card) <==> !ClaimedBelow(masks, excluded, |masks|, card) {
      SolveUpToGrants(masks, excluded, |masks|, card);
    }
    forall i, card: nat | 0 <= i < |masks| && i != excluded
      ensures Claims(solved[i], card) <==> Claims(masks[i], card) && !ClaimedBelow(masks, excluded, i, card)
    {
      if card < 8 {
        SolveUpToGrants(masks, excluded, |masks|, card);
      } else {
        BitsInRange(solved[i], 7, card);
        BitsInRange(masks[i], 7, card);
      }
    }
  }

  class Mapping {
    /** The `voice_allocation` field of every part's mapping. */
    const masks: array<byte>

    constructor ()
      ensures masks.Length == NUM_PARTS && fresh(masks)
    {
      masks := new byte[NUM_PARTS];
    }

    method SolveAllocationConflicts(constraint: byte) returns (available: byte)
      requires masks.Length == NUM_PARTS
      modifies masks
      ensures Settles(old(masks[..]), constraint, masks[..])
      ensures forall card: nat :: card < 8 ==>
                (Claims(available, card) <==> !ClaimedBelow(old(masks[..]), constraint, NUM_PARTS, card))
    {
      ghost var before := masks[..];
      available := 0xff;
      for i := 0 to NUM_PARTS
        invariant (masks[..], available) == SolveUpTo(before, constraint, i)
      {
        if i != constraint as int {
          masks[i] := And(masks[i], available);
          available := AndNot(available, masks[i]);
        }
      }
      SolveSettles(before, constraint);
    }
  }
}
