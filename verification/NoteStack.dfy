/**
 The stack of pressed keys: a linked list threaded through a fixed pool of three-byte nodes, with an
 index over the same nodes sorted by pitch.  It refines a plain list of keys, most recent first.
 */
module NoteStack {
  import opened Bytes

  const FREE_SLOT: byte := 0xff

  datatype Node = Node(note: byte, velocity: byte, next: byte)
  const FREE_NODE := Node(FREE_SLOT, 0, 0)

  datatype Key = Key(note: byte, velocity: byte)

  lemma NotFree(note: byte)
    requires note < 128
    ensures note != FREE_SLOT
  {
  }

  // ---- The reference: a bounded list of keys, most recent first ----

  /** Deletes the key of that pitch, if there is one. */
  function Release(keys: seq<Key>, note: byte): seq<Key> {
    if keys == [] then []
    else if keys[0].note == note then keys[1..]
    else [keys[0]] + Release(keys[1..], note)
  }

  /** Deletes the pitch, forgets the oldest key when there is no room, and puts the key in front. */
  function Press(keys: seq<Key>, capacity: nat, key: Key): seq<Key>
    requires capacity > 0
  {
    var others := Release(keys, key.note);
    [key] + if |others| >= capacity then others[..capacity - 1] else others
  }

  /** Changes the velocity of one pitch. */
  function WithVelocity(keys: seq<Key>, note: byte, velocity: byte): (r: seq<Key>)
    ensures |r| == |keys|
  {
    seq(|keys|, i requires 0 <= i < |keys| => if keys[i].note == note then Key(note, velocity) else keys[i])
  }

  function LowerKeys(keys: seq<Key>, note: byte): set<Key> {
    set i | 0 <= i < |keys| && keys[i].note < note :: keys[i]
  }

  /** No two keys have as many keys below them. */
  lemma SameRank(keys: seq<Key>, a: Key, b: Key)
    requires DistinctNotes(keys) && a in keys && b in keys
    requires |LowerKeys(keys, a.note)| == |LowerKeys(keys, b.note)|
    ensures a == b
  {
    if a.note < b.note {
      HigherRank(keys, a, b);
    } else if b.note < a.note {
      HigherRank(keys, b, a);
    }
  }

  lemma HigherRank(keys: seq<Key>, a: Key, b: Key)
    requires a in keys && b in keys && a.note < b.note
    ensures |LowerKeys(keys, a.note)| < |LowerKeys(keys, b.note)|
  {
    assert a in LowerKeys(keys, b.note) && a !in LowerKeys(keys, a.note);
    assert LowerKeys(keys, a.note) <= LowerKeys(keys, b.note) - {a};
    SubsetCount(LowerKeys(keys, a.note), LowerKeys(keys, b.note) - {a});
  }

  ghost predicate DistinctNotes(keys: seq<Key>) {
    forall i, j :: 0 <= i < j < |keys| ==> keys[i].note != keys[j].note
  }

  lemma {:induction false} ReleaseAt(keys: seq<Key>, k: nat)
    requires k < |keys| && DistinctNotes(keys)
    ensures Release(keys, keys[k].note) == Without(keys, k)
  {
    if k > 0 {
      ReleaseAt(keys[1..], k - 1);
      assert Without(keys, k) == [keys[0]] + Without(keys[1..], k - 1);
    }
  }

  lemma {:induction false} ReleaseAbsent(keys: seq<Key>, note: byte)
    requires forall i :: 0 <= i < |keys| ==> keys[i].note != note
    ensures Release(keys, note) == keys
  {
    if keys != [] {
      ReleaseAbsent(keys[1..], note);
    }
  }

  /** Either the pitch is absent, or releasing it removes the one key that has it. */
  lemma ReleaseCases(keys: seq<Key>, note: byte) returns (k: nat)
    requires DistinctNotes(keys)
    ensures k <= |keys|
    ensures k < |keys| ==> keys[k].note == note && Release(keys, note) == Without(keys, k)
    ensures k == |keys| ==> Release(keys, note) == keys
    ensures forall i :: 0 <= i < |keys| && i != k ==> keys[i].note != note
    ensures DistinctNotes(Release(keys, note))
  {
    if i :| 0 <= i < |keys| && keys[i].note == note {
      ReleaseAt(keys, i);
      k := i;
    } else {
      ReleaseAbsent(keys, note);
      k := |keys|;
    }
  }

  /** Pressing by releases only: the pitch first, then the oldest key of a full stack. */
  lemma PressInSteps(keys: seq<Key>, capacity: nat, note: byte)
    requires DistinctNotes(keys) && 0 < capacity && |keys| <= capacity
    ensures |Release(keys, note)| <= capacity
    ensures forall i :: 0 <= i < |Release(keys, note)| ==> Release(keys, note)[i].note != note
    ensures |Release(keys, note)| == capacity ==>
              Release(Release(keys, note), Release(keys, note)[capacity - 1].note) ==
                  Release(keys, note)[..capacity - 1]
  {
    hide Release;
    var k := ReleaseCases(keys, note);
    var others := Release(keys, note);
    forall i | 0 <= i < |others| ensures others[i].note != note {
      assert others[i] == keys[if i < k then i else i + 1];
    }
    if |others| == capacity {
      ReleaseAt(others, capacity - 1);
      assert Without(others, capacity - 1) == others[..capacity - 1];
    }
  }

  ghost function NotesOf(keys: seq<Key>): set<byte> {
    set i | 0 <= i < |keys| :: keys[i].note
  }

  lemma ReleaseDrops(keys: seq<Key>, note: byte)
    requires DistinctNotes(keys)
    ensures NotesOf(Release(keys, note)) == NotesOf(keys) - {note}
  {
    var k := ReleaseCases(keys, note);
    var others := Release(keys, note);
    forall i | 0 <= i < |keys| && i != k ensures keys[i].note in NotesOf(others) {
      assert keys[i] == others[if i < k then i else i - 1];
    }
    forall i | 0 <= i < |others| ensures others[i].note in NotesOf(keys) - {note} {
      assert others[i] == keys[if i < k then i else i + 1];
    }
  }

  lemma PressAdds(keys: seq<Key>, capacity: nat, key: Key)
    requires DistinctNotes(keys) && capacity > 0
    ensures NotesOf(Press(keys, capacity, key)) <= NotesOf(keys) + {key.note}
    ensures key.note in NotesOf(Press(keys, capacity, key))
  {
    ReleaseDrops(keys, key.note);
    var others, pressed := Release(keys, key.note), Press(keys, capacity, key);
    assert pressed[0] == key;
    forall i | 0 <= i < |pressed| ensures pressed[i].note in NotesOf(keys) + {key.note} {
      assert i > 0 ==> pressed[i] == others[i - 1] && others[i - 1].note in NotesOf(others);
    }
  }

  lemma {:induction false} CountNotes(keys: seq<Key>)
    requires DistinctNotes(keys)
    ensures |NotesOf(keys)| == |keys|
  {
    if keys != [] {
      CountNotes(keys[1..]);
      assert NotesOf(keys) == NotesOf(keys[1..]) + {keys[0].note} by {
        assert keys == [keys[0]] + keys[1..];
      }
    }
  }

  lemma ShiftedUp(before: seq<byte>, after: seq<byte>, i: nat, n: nat)
    requires i <= n < |before| == |after|
    requires forall m :: 0 <= m <= i ==> after[m] == before[m]
    requires forall m :: i < m <= n ==> after[m] == before[m - 1]
    ensures after[..i] == before[..i] && after[i + 1..n + 1] == before[i..n]
  {
  }

  // ---- The stack as a memory of presses ----

  ghost predicate InPressOrder(keys: seq<Key>, presses: seq<byte>) {
    && (forall i :: 0 <= i < |keys| ==> LastTime(presses, keys[i].note) > 0)
    && (forall i, j :: 0 <= i < j < |keys| ==> LastTime(presses, keys[i].note) > LastTime(presses, keys[j].note))
  }

  /** The stack is full of pitches that were all pressed after this one. */
  ghost predicate IsForgotten(keys: seq<Key>, presses: seq<byte>, capacity: nat, note: byte) {
    |keys| == capacity && forall i :: 0 <= i < |keys| ==> LastTime(presses, keys[i].note) > LastTime(presses, note)
  }

  /** The keys are the pitches pressed last, the latest first, and as many of them as there is room for. */
  ghost predicate RemembersLatest(keys: seq<Key>, presses: seq<byte>, capacity: nat) {
    && DistinctNotes(keys) && |keys| <= capacity && InPressOrder(keys, presses)
    && forall note: byte ::
         LastTime(presses, note) > 0 && note !in NotesOf(keys) ==> IsForgotten(keys, presses, capacity, note)
  }

  lemma OnePressMore(presses: seq<byte>, pressed: byte, note: byte)
    ensures LastTime(presses + [pressed], note) == if note == pressed then |presses| + 1 else LastTime(presses, note)
  {
    assert (presses + [pressed])[..|presses|] == presses;
  }

  /** A press puts its key on top and shifts the others down, over its old place if it had one. */
  lemma PressShifts(keys: seq<Key>, capacity: nat, key: Key) returns (k: nat)
    requires DistinctNotes(keys) && |keys| <= capacity && capacity > 0
    ensures k <= |keys| && (k < |keys| ==> keys[k].note == key.note)
    ensures forall i :: 0 <= i < |keys| && i != k ==> keys[i].note != key.note
    ensures var pressed := Press(keys, capacity, key);
            && |pressed| == (if k < |keys| || |keys| == capacity then |keys| else |keys| + 1) && 0 < |pressed|
            && pressed[0] == key && DistinctNotes(pressed)
            && forall i :: 1 <= i < |pressed| ==> i - 1 < |keys| && pressed[i] == keys[if i - 1 < k then i - 1 else i]
  {
    hide Release;
    k := ReleaseCases(keys, key.note);
  }

  lemma PressKeepsOrder(keys: seq<Key>, presses: seq<byte>, capacity: nat, key: Key)
    requires DistinctNotes(keys) && |keys| <= capacity && InPressOrder(keys, presses) && capacity > 0
    ensures InPressOrder(Press(keys, capacity, key), presses + [key.note])
  {
    hide Press, LastTime;
    var k := PressShifts(keys, capacity, key);
    var pressed, later := Press(keys, capacity, key), presses + [key.note];
    forall i | 0 <= i < |pressed|
      ensures LastTime(later, pressed[i].note) == if i == 0 then |presses| + 1 else LastTime(presses, pressed[i].note)
    {
      OnePressMore(presses, key.note, pressed[i].note);
    }
  }

  /**
   After a press every pitch is still there, except that of the last key of a full stack if the press is a
   new one.
   */
  lemma OnlyOldestDrops(keys: seq<Key>, capacity: nat, key: Key, i: nat)
    requires DistinctNotes(keys) && |keys| <= capacity && i < |keys|
    ensures var pressed := Press(keys, capacity, key);
            || keys[i].note in NotesOf(pressed)
            || (i == |keys| - 1 == capacity - 1 && |pressed| == capacity &&
                forall j :: 1 <= j < capacity ==> pressed[j] == keys[j - 1])
  {
    hide Press;
    var k := PressShifts(keys, capacity, key);
    var pressed, at := Press(keys, capacity, key), if i < k then i + 1 else i;
    assert pressed[0].note in NotesOf(pressed);
    if i != k && at < |pressed| {
      assert pressed[at] == keys[i];
    }
  }

  lemma PressForgetsOldest(keys: seq<Key>, presses: seq<byte>, capacity: nat, key: Key, note: byte)
    requires RemembersLatest(keys, presses, capacity) && capacity > 0
    requires LastTime(presses + [key.note], note) > 0 && note !in NotesOf(Press(keys, capacity, key))
    ensures IsForgotten(Press(keys, capacity, key), presses + [key.note], capacity, note)
  {
    hide Press, LastTime;
    var k := PressShifts(keys, capacity, key);
    var pressed, later := Press(keys, capacity, key), presses + [key.note];
    assert pressed[0].note in NotesOf(pressed);
    OnePressMore(presses, key.note, note);
    forall i | 0 <= i < |pressed|
      ensures LastTime(later, pressed[i].note) == if i == 0 then |presses| + 1 else LastTime(presses, pressed[i].note)
    {
      OnePressMore(presses, key.note, pressed[i].note);
    }
    if note in NotesOf(keys) {
      var i :| 0 <= i < |keys| && keys[i].note == note;
      OnlyOldestDrops(keys, capacity, key, i);
    }
  }

  lemma PressRemembersLatest(keys: seq<Key>, presses: seq<byte>, capacity: nat, key: Key)
    requires RemembersLatest(keys, presses, capacity) && capacity > 0
    ensures RemembersLatest(Press(keys, capacity, key), presses + [key.note], capacity)
  {
    hide Press, LastTime, InPressOrder, IsForgotten, NotesOf;
    var k := PressShifts(keys, capacity, key);
    PressKeepsOrder(keys, presses, capacity, key);
    forall note: byte
      | LastTime(presses + [key.note], note) > 0 && note !in NotesOf(Press(keys, capacity, key))
      ensures IsForgotten(Press(keys, capacity, key), presses + [key.note], capacity, note)
    {
      PressForgetsOldest(keys, presses, capacity, key, note);
    }
  }

  function PressAll(keys: seq<Key>, capacity: nat, presses: seq<Key>): seq<Key>
    requires capacity > 0
  {
    if presses == [] then keys
    else Press(PressAll(keys, capacity, presses[..|presses| - 1]), capacity, presses[|presses| - 1])
  }

  function Pitches(keys: seq<Key>): (notes: seq<byte>)
    ensures |notes| == |keys|
  {
    seq(|keys|, i requires 0 <= i < |keys| => keys[i].note)
  }

  /** After any presses the stack holds the pitches pressed last, the latest first. */
  lemma {:induction false} LatestAreRemembered(capacity: nat, presses: seq<Key>)
    requires capacity > 0
    ensures RemembersLatest(PressAll([], capacity, presses), Pitches(presses), capacity)
  {
    if presses != [] {
      var init, last := presses[..|presses| - 1], presses[|presses| - 1];
      LatestAreRemembered(capacity, init);
      PressRemembersLatest(PressAll([], capacity, init), Pitches(init), capacity, last);
      assert Pitches(presses) == Pitches(init) + [last.note];
      hide RemembersLatest, Press;
    }
  }

  // ---- The representation ----

  /** The node pool that a block of memory holds. */
  ghost function Nodes(mem: seq<byte>): (pool: seq<Node>)
    requires |mem| % 3 == 0
    ensures 3 * |pool| == |mem|
  {
    if mem == [] then [] else [Node(mem[0], mem[1], mem[2])] + Nodes(mem[3..])
  }

  lemma {:induction false} NodesAt(mem: seq<byte>, i: nat)
    requires |mem| % 3 == 0 && 3 * i + 2 < |mem|
    ensures i < |Nodes(mem)| && Nodes(mem)[i] == Node(mem[3 * i], mem[3 * i + 1], mem[3 * i + 2])
  {
    if i > 0 {
      var rest := mem[3..];
      NodesAt(rest, i - 1);
      assert Nodes(mem)[i] == Nodes(rest)[i - 1];
      assert rest[3 * (i - 1)] == mem[3 * i] && rest[3 * (i - 1) + 1] == mem[3 * i + 1] &&
             rest[3 * (i - 1) + 2] == mem[3 * i + 2];
    }
  }

  /** The base-1 pointer to the k-th node of a chain; 0 past its end. */
  function Pointer(order: seq<byte>, k: nat): byte {
    if k < |order| then order[k] else 0
  }

  ghost predicate InPool(pool: seq<Node>, order: seq<byte>) {
    forall k :: 0 <= k < |order| ==> 1 <= order[k] < |pool|
  }

  /** The k-th node of the chain points at the next one. */
  ghost predicate LinksOn(pool: seq<Node>, order: seq<byte>, k: nat) {
    k < |order| && order[k] < |pool| && pool[order[k]].next == Pointer(order, k + 1)
  }

  ghost predicate Linked(pool: seq<Node>, root: byte, order: seq<byte>) {
    root == Pointer(order, 0) && forall k :: 0 <= k < |order| ==> LinksOn(pool, order, k)
  }

  /** The occupied slots are the ones in the chain; a free slot is all blank. */
  ghost predicate OthersFree(pool: seq<Node>, order: seq<byte>) {
    forall slot: byte :: 1 <= slot < |pool| ==>
      if slot in order then pool[slot].note != FREE_SLOT else pool[slot] == FREE_NODE
  }

  /** `order` lists the slots met from `root` to the null pointer; every other slot is free. */
  ghost predicate IsChain(pool: seq<Node>, root: byte, order: seq<byte>) {
    && 0 < |pool| <= 256
    && pool[0].note == FREE_SLOT
    && Distinct(order)
    && InPool(pool, order)
    && Linked(pool, root, order)
    && OthersFree(pool, order)
    && DistinctNotes(KeysOf(pool, order))
  }

  /** `index` holds the slots of the chain by strictly ascending pitch. */
  ghost predicate IsSortedIndex(pool: seq<Node>, order: seq<byte>, index: seq<byte>) {
    && |index| == |order|
    && (forall i :: 0 <= i < |index| ==> index[i] in order && index[i] < |pool|)
    && (forall i, j :: 0 <= i < j < |index| ==> pool[index[i]].note < pool[index[j]].note)
    && (forall slot :: slot in order ==> slot in index)
  }

  ghost function KeysOf(pool: seq<Node>, order: seq<byte>): (keys: seq<Key>)
    requires InPool(pool, order)
    ensures |keys| == |order|
    ensures forall k {:trigger keys[k]} :: 0 <= k < |keys| ==>
            keys[k] == Key(pool[order[k]].note, pool[order[k]].velocity)
  {
    seq(|order|, k requires 0 <= k < |order| => Key(pool[order[k]].note, pool[order[k]].velocity))
  }

  /** The sorted index is a rearrangement of the chain. */
  lemma SortedIndexIsPermutation(pool: seq<Node>, root: byte, order: seq<byte>, index: seq<byte>)
    requires IsChain(pool, root, order) && IsSortedIndex(pool, order, index)
    ensures multiset(index) == multiset(order)
  {
    assert Distinct(index);
    DistinctMultiset(index);
    DistinctMultiset(order);
    forall b: byte ensures multiset(index)[b] == multiset(order)[b] {
      assert b in multiset(index) <==> b in index;
      assert b in multiset(order) <==> b in order;
    }
  }

  lemma {:induction false} DistinctMultiset(s: seq<byte>)
    requires Distinct(s)
    ensures forall b: byte :: multiset(s)[b] <= 1
  {
    if s != [] {
      DistinctMultiset(s[1..]);
      assert s == [s[0]] + s[1..];
      forall b: byte ensures multiset(s)[b] <= 1 {
        if b == s[0] {
          assert b !in s[1..];
        }
      }
    }
  }

  /** A chain never passes a node twice and is never longer than the pool. */
  lemma ChainFits(pool: seq<Node>, root: byte, order: seq<byte>)
    requires IsChain(pool, root, order)
    ensures |order| < |pool|
    ensures |order| == |pool| - 1 ==> forall slot: byte :: 1 <= slot < |pool| ==> slot in order
    ensures |order| < |pool| - 1 ==> exists slot: byte :: 1 <= slot < |pool| && pool[slot].note == FREE_SLOT
  {
    Pigeonhole(order, 1, |pool|);
  }

  // ---- Removing and inserting one node ----

  ghost function Unlinked(pool: seq<Node>, order: seq<byte>, k: nat): seq<Node>
    requires k < |order| && InPool(pool, order)
  {
    var bypass :=
      if k == 0 then pool else pool[order[k - 1] := pool[order[k - 1]].(next := pool[order[k]].next)];
    bypass[order[k] := FREE_NODE]
  }

  lemma UnlinkKeepsLinks(pool: seq<Node>, root: byte, order: seq<byte>, k: nat, order': seq<byte>)
    requires InPool(pool, order) && Distinct(order) && Linked(pool, root, order) && Removes(order', order, k)
    ensures Linked(Unlinked(pool, order, k), if k == 0 then pool[order[0]].next else root, order')
  {
    var pool' := Unlinked(pool, order, k);
    assert LinksOn(pool, order, k);
    forall i | 0 <= i < |order'| ensures LinksOn(pool', order', i) {
      var j := if i < k then i else i + 1;
      assert order'[i] == order[j] && LinksOn(pool, order, j);
    }
  }

  lemma UnlinkFreesOne(pool: seq<Node>, order: seq<byte>, k: nat, order': seq<byte>)
    requires InPool(pool, order) && Distinct(order) && OthersFree(pool, order) && Removes(order', order, k)
    ensures OthersFree(Unlinked(pool, order, k), order')
  {
    RemovesFromDistinct(order', order, k);
  }

  lemma UnlinkReleasesKey(pool: seq<Node>, order: seq<byte>, k: nat, order': seq<byte>)
    requires InPool(pool, order) && Distinct(order) && Removes(order', order, k)
    requires DistinctNotes(KeysOf(pool, order))
    ensures InPool(pool, order')
    ensures KeysOf(Unlinked(pool, order, k), order') == Release(KeysOf(pool, order), pool[order[k]].note)
    ensures DistinctNotes(KeysOf(Unlinked(pool, order, k), order'))
  {
    var keys, keys' := KeysOf(pool, order), KeysOf(Unlinked(pool, order, k), order');
    forall i | 0 <= i < |keys'| ensures keys'[i] == keys[if i < k then i else i + 1] {
      var j := if i < k then i else i + 1;
      assert order'[i] == order[j];
    }
    RemovesUnique(keys', keys, k);
    ReleaseAt(keys, k);
  }

  lemma UnlinkKeepsChain(pool: seq<Node>, root: byte, order: seq<byte>, k: nat, order': seq<byte>)
    requires IsChain(pool, root, order) && Removes(order', order, k)
    ensures IsChain(Unlinked(pool, order, k), if k == 0 then pool[order[0]].next else root, order')
    ensures KeysOf(Unlinked(pool, order, k), order') == Release(KeysOf(pool, order), pool[order[k]].note)
  {
    RemovesFromDistinct(order', order, k);
    UnlinkKeepsLinks(pool, root, order, k, order');
    UnlinkFreesOne(pool, order, k, order');
    UnlinkReleasesKey(pool, order, k, order');
  }

  /** The removed node is not its own predecessor. */
  lemma PointsElsewhere(pool: seq<Node>, order: seq<byte>, k: nat)
    requires Distinct(order) && InPool(pool, order) && k < |order|
    ensures order[k] != if k == 0 then 0 else order[k - 1]
  {
  }

  /** The slot of the note is blanked; note and velocity of the other slots are as before. */
  ghost predicate EmptiesSlot(before: seq<Node>, after: seq<Node>, note: byte) {
    && |before| == |after|
    && forall s :: 1 <= s < |before| ==>
         && after[s].velocity == (if before[s].note == note then 0 else before[s].velocity)
         && after[s].note == (if before[s].note == note then FREE_SLOT else before[s].note)
  }

  lemma UnlinkEmptiesSlot(pool: seq<Node>, order: seq<byte>, k: nat)
    requires InPool(pool, order) && k < |order| && |pool| < 256
    requires forall s: byte :: 1 <= s as int < |pool| && s != order[k] ==> pool[s].note != pool[order[k]].note
    ensures EmptiesSlot(pool, Unlinked(pool, order, k), pool[order[k]].note)
  {
    forall s | 1 <= s < |pool| && s != order[k] as int ensures pool[s].note != pool[order[k]].note {
      assert pool[s as byte].note != pool[order[k]].note;
    }
  }

  lemma UnlinkKeepsIndex(
      pool: seq<Node>, order: seq<byte>, k: nat, order': seq<byte>, index: seq<byte>, i: nat, index': seq<byte>)
    requires InPool(pool, order) && Distinct(order) && IsSortedIndex(pool, order, index)
    requires Removes(order', order, k) && Removes(index', index, i) && index[i] == order[k]
    ensures IsSortedIndex(Unlinked(pool, order, k), order', index')
  {
    var pool' := Unlinked(pool, order, k);
    assert Distinct(index);
    RemovesFromDistinct(order', order, k);
    RemovesFromDistinct(index', index, i);
    forall m | 0 <= m < |index'|
      ensures index'[m] in order' && index'[m] < |pool'|
      ensures pool'[index'[m]].note == pool[index[if m < i then m else m + 1]].note
    {
      assert index'[m] in index';
    }
  }

  lemma LinkKeepsChain(pool: seq<Node>, root: byte, order: seq<byte>, slot: byte, key: Key)
    requires IsChain(pool, root, order)
    requires 1 <= slot < |pool| && pool[slot].note == FREE_SLOT && key.note != FREE_SLOT
    requires forall i :: 0 <= i < |order| ==> KeysOf(pool, order)[i].note != key.note
    ensures slot !in order
    ensures IsChain(pool[slot := Node(key.note, key.velocity, root)], slot, [slot] + order)
    ensures KeysOf(pool[slot := Node(key.note, key.velocity, root)], [slot] + order) == [key] + KeysOf(pool, order)
  {
    var pool' := pool[slot := Node(key.note, key.velocity, root)];
    var order' := [slot] + order;
    forall k | 0 <= k < |order'| ensures LinksOn(pool', order', k) {
      if k > 0 {
        assert LinksOn(pool, order, k - 1);
      }
    }
    assert KeysOf(pool', order') == [key] + KeysOf(pool, order);
  }

  lemma LinkKeepsIndex(
      pool: seq<Node>, order: seq<byte>, index: seq<byte>, slot: byte, node: Node, i: nat, index': seq<byte>)
    requires IsSortedIndex(pool, order, index)
    requires slot < |pool| && slot !in order
    requires Removes(index, index', i) && index'[i] == slot
    requires forall m :: 0 <= m < i ==> pool[index[m]].note < node.note
    requires forall m :: i <= m < |index| ==> node.note < pool[index[m]].note
    ensures IsSortedIndex(pool[slot := node], [slot] + order, index')
  {
    var pool' := pool[slot := node];
    forall m | 0 <= m < |index'| && m != i
      ensures index'[m] == index[if m < i then m else m - 1] && index'[m] in order
      ensures pool'[index'[m]] == pool[index[if m < i then m else m - 1]]
    {
      assert index'[m] == index[if m < i then m else m - 1];
    }
    forall s | s in order ensures s in index' {
      var n :| 0 <= n < |index| && index[n] == s;
      assert index'[if n < i then n else n + 1] == s;
    }
  }

  /** In an ascending index the pitches above a given one are exactly those from the first higher one on. */
  lemma IndexSplits(pool: seq<Node>, order: seq<byte>, index: seq<byte>, note: byte, at: nat)
    requires InPool(pool, order) && IsSortedIndex(pool, order, index) && at <= |index|
    requires forall i :: 0 <= i < |order| ==> KeysOf(pool, order)[i].note != note
    requires forall i :: 0 <= i < at ==> pool[index[i]].note <= note
    requires at < |index| ==> pool[index[at]].note > note
    ensures forall m :: 0 <= m < at ==> pool[index[m]].note < note
    ensures forall m :: at <= m < |index| ==> note < pool[index[m]].note
  {
    forall m | 0 <= m < |index| ensures pool[index[m]].note != note {
      assert index[m] in order;
      var k :| 0 <= k < |order| && order[k] == index[m];
      assert KeysOf(pool, order)[k].note != note;
    }
  }

  lemma LinkKeeps(
      pool: seq<Node>, root: byte, order: seq<byte>, index: seq<byte>, slot: byte, key: Key, at: nat, index': seq<byte>)
    requires IsChain(pool, root, order) && IsSortedIndex(pool, order, index)
    requires 1 <= slot < |pool| && pool[slot].note == FREE_SLOT && key.note != FREE_SLOT
    requires forall i :: 0 <= i < |order| ==> KeysOf(pool, order)[i].note != key.note
    requires Removes(index, index', at) && index'[at] == slot
    requires forall i :: 0 <= i < at ==> pool[index[i]].note <= key.note
    requires at < |index| ==> pool[index[at]].note > key.note
    ensures IsChain(pool[slot := Node(key.note, key.velocity, root)], slot, [slot] + order)
    ensures IsSortedIndex(pool[slot := Node(key.note, key.velocity, root)], [slot] + order, index')
    ensures KeysOf(pool[slot := Node(key.note, key.velocity, root)], [slot] + order) == [key] + KeysOf(pool, order)
  {
    LinkKeepsChain(pool, root, order, slot, key);
    IndexSplits(pool, order, index, key.note, at);
    LinkKeepsIndex(pool, order, index, slot, Node(key.note, key.velocity, root), at, index');
  }

  /** Of the keys below an indexed one, the highest is the one before it in the index. */
  lemma BelowInIndex(pool: seq<Node>, order: seq<byte>, index: seq<byte>, j: nat, i: nat)
    requires InPool(pool, order) && IsSortedIndex(pool, order, index) && j < |order| && i < |index|
    ensures index[i] < |pool| && KeysOf(pool, order)[j] == Key(pool[order[j]].note, pool[order[j]].velocity)
    ensures KeysOf(pool, order)[j].note < pool[index[i]].note <==>
            i > 0 && (order[j] == index[i - 1] || KeysOf(pool, order)[j].note < pool[index[i - 1]].note)
  {
    assert order[j] in index;
    var n :| 0 <= n < |index| && index[n] == order[j];
    assert n < i ==> pool[index[n]].note < pool[index[i]].note;
    assert n < i - 1 ==> pool[index[n]].note < pool[index[i - 1]].note;
    assert i - 1 < n && i > 0 ==> pool[index[i - 1]].note < pool[index[n]].note;
  }

  lemma OneMoreLower(keys: seq<Key>, low: byte, high: byte, m: nat)
    requires m < |keys| && low <= keys[m].note
    requires forall j :: 0 <= j < |keys| ==> (keys[j].note < high <==> keys[j] == keys[m] || keys[j].note < low)
    ensures |LowerKeys(keys, high)| == |LowerKeys(keys, low)| + 1
  {
    assert LowerKeys(keys, high) == LowerKeys(keys, low) + {keys[m]};
  }

  lemma {:induction false} RankInIndex(pool: seq<Node>, order: seq<byte>, index: seq<byte>, i: nat)
    requires InPool(pool, order) && IsSortedIndex(pool, order, index) && i < |index|
    ensures |LowerKeys(KeysOf(pool, order), pool[index[i]].note)| == i
  {
    var keys := KeysOf(pool, order);
    if i == 0 {
      forall j | 0 <= j < |order| ensures keys[j].note >= pool[index[0]].note {
        BelowInIndex(pool, order, index, j, 0);
      }
      assert LowerKeys(keys, pool[index[0]].note) == {};
    } else {
      hide LowerKeys, KeysOf;
      RankInIndex(pool, order, index, i - 1);
      assert index[i - 1] in order;
      var m :| 0 <= m < |order| && order[m] == index[i - 1];
      var low, high := pool[index[i - 1]].note, pool[index[i]].note;
      assert keys[m].note == low;
      forall j | 0 <= j < |order| ensures keys[j].note < high <==> keys[j] == keys[m] || keys[j].note < low {
        BelowInIndex(pool, order, index, j, i);
      }
      OneMoreLower(keys, low, high, m);
    }
  }

  lemma SetVelocityKeepsChain(
      pool: seq<Node>, root: byte, order: seq<byte>, index: seq<byte>, slot: byte, velocity: byte)
    requires IsChain(pool, root, order) && IsSortedIndex(pool, order, index)
    requires 1 <= slot < |pool| && pool[slot].note != FREE_SLOT
    ensures IsChain(pool[slot := pool[slot].(velocity := velocity)], root, order)
    ensures IsSortedIndex(pool[slot := pool[slot].(velocity := velocity)], order, index)
    ensures KeysOf(pool[slot := pool[slot].(velocity := velocity)], order) ==
            WithVelocity(KeysOf(pool, order), pool[slot].note, velocity)
  {
    var pool' := pool[slot := pool[slot].(velocity := velocity)];
    assert slot in order;
    forall k | 0 <= k < |order| ensures LinksOn(pool', order, k) {
      assert LinksOn(pool, order, k);
    }
    var m :| 0 <= m < |order| && order[m] == slot;
    forall k | 0 <= k < |order|
      ensures KeysOf(pool', order)[k] == WithVelocity(KeysOf(pool, order), pool[slot].note, velocity)[k]
    {
      assert k != m ==> KeysOf(pool, order)[k].note != KeysOf(pool, order)[m].note;
    }
  }

  class Stack {
    const capacity: nat
    /** The pool, as raw bytes: node 0 is a dummy, pointers are base 1. */
    const mem: array<byte>
    const sorted: array<byte>
    var size: byte
    var root: byte
    ghost var order: seq<byte>

    ghost predicate HasShape()
    {
      0 < capacity < 255 && mem.Length == 3 * (capacity + 1) && sorted.Length == capacity + 1 && mem != sorted
    }

    ghost predicate Valid()
      reads this, mem, sorted
    {
      && HasShape()
      && size as int == |order| <= capacity
      && IsChain(Pool(), root, order)
      && IsSortedIndex(Pool(), order, sorted[..size])
    }

    ghost function Pool(): (pool: seq<Node>)
      requires HasShape()
      reads mem
      ensures |pool| == capacity + 1
    {
      Nodes(mem[..])
    }

    ghost function Keys(): seq<Key>
      requires Valid()
      reads this, mem, sorted
    {
      KeysOf(Pool(), order)
    }

    constructor (capacity: nat)
      requires 0 < capacity < 255
      ensures this.capacity == capacity && fresh(mem) && fresh(sorted)
      ensures Valid() && Keys() == []
    {
      this.capacity := capacity;
      mem := new byte[3 * (capacity + 1)];
      sorted := new byte[capacity + 1];
      new;
      Clear();
    }

    /** The occupied slots hold the keys, one each. */
    lemma SlotHoldsKey(slot: byte)
      requires Valid() && 1 <= slot as int <= capacity && Pool()[slot].note != FREE_SLOT
      ensures Key(Pool()[slot].note, Pool()[slot].velocity) in Keys()
      ensures forall s: byte :: 1 <= s as int <= capacity && s != slot ==> Pool()[s].note != Pool()[slot].note
    {
      var k := PositionOf(slot);
      assert Keys()[k] == Key(Pool()[slot].note, Pool()[slot].velocity);
      forall s: byte | 1 <= s as int <= capacity && s != slot ensures Pool()[s].note != Pool()[slot].note {
        if Pool()[s].note != FREE_SLOT {
          var j := PositionOf(s);
          assert Keys()[j].note != Keys()[k].note;
        }
      }
    }

    lemma AbsentFromSlots(note: byte)
      requires Valid() && forall k :: 0 <= k < |Keys()| ==> Keys()[k].note != note
      ensures forall slot :: 1 <= slot <= capacity && Pool()[slot].note == note ==>
              note == FREE_SLOT && Pool()[slot].velocity == 0
    {
      forall slot | 1 <= slot <= capacity && Pool()[slot].note == note
        ensures note == FREE_SLOT && Pool()[slot].velocity == 0
      {
        if note != FREE_SLOT {
          var k := PositionOf(slot);
        }
      }
    }

    lemma PositionOf(slot: byte) returns (k: nat)
      requires Valid() && 1 <= slot as int <= capacity && Pool()[slot].note != FREE_SLOT
      ensures k < |order| && order[k] == slot && Keys()[k].note == Pool()[slot].note
    {
      assert slot in order;
      k :| 0 <= k < |order| && order[k] == slot;
    }

    lemma KeyHasSlot(k: nat) returns (slot: byte)
      requires Valid() && k < |Keys()|
      ensures 1 <= slot as int <= capacity && Keys()[k] == Key(Pool()[slot].note, Pool()[slot].velocity)
      ensures Keys()[k].note != FREE_SLOT
    {
      slot := order[k];
      assert slot in order;
    }

    function NodeAt(slot: byte): (node: Node)
      requires HasShape() && slot as int <= capacity
      reads mem
      ensures node == Pool()[slot]
    {
      var s := slot as int;
      NodesAt(mem[..], s);
      Node(mem[3 * s], mem[3 * s + 1], mem[3 * s + 2])
    }

    method SetNode(slot: byte, node: Node)
      requires HasShape() && slot as int <= capacity
      modifies mem
      ensures Pool() == old(Pool())[slot := node]
    {
      var s := slot as int;
      mem[3 * s], mem[3 * s + 1], mem[3 * s + 2] := node.note, node.velocity, node.next;
      forall i: nat | i <= capacity ensures Pool()[i] == old(Pool())[s := node][i] {
        NodesAt(mem[..], i);
        NodesAt(old(mem[..]), i);
      }
    }

    method Clear()
      requires HasShape()
      modifies this, mem, sorted
      ensures Valid() && Keys() == []
      ensures forall slot :: 1 <= slot <= capacity ==> Pool()[slot].velocity == 0 && Pool()[slot].note == FREE_SLOT
      ensures Pool()[0] == old(Pool()[0]).(note := FREE_SLOT)
    {
      size, root, order := 0, 0, [];
      ghost var dummy := Pool()[0];
      forall i | 3 <= i < mem.Length {
        mem[i] := 0;
      }
      forall i | 1 <= i < sorted.Length {
        sorted[i] := 0;
      }
      forall i: nat | i <= capacity
        ensures Pool()[i] == if i == 0 then dummy else Node(0, 0, 0)
      {
        NodesAt(mem[..], i);
        NodesAt(old(mem[..]), i);
      }
      for i := 0 to capacity + 1
        invariant size == 0 && root == 0 && order == []
        invariant Pool()[0] == dummy.(note := if i == 0 then dummy.note else FREE_SLOT)
        invariant forall s :: 1 <= s <= capacity ==> Pool()[s] == Node(if s < i then FREE_SLOT else 0, 0, 0)
      {
        SetNode(i, NodeAt(i).(note := FREE_SLOT));
      }
    }

    /** Takes one slot out of the sorted index, closing the gap. */
    method RemoveSorted(slot: byte) returns (ghost at: nat)
      requires 0 < size as int <= sorted.Length && slot in sorted[..size]
      modifies sorted
      ensures at < size as int && old(sorted[at]) == slot
      ensures sorted[..size - 1] == Without(old(sorted[..size]), at)
    {
      hide *;
      var i := 0;
      while sorted[i] != slot
        invariant 0 <= i < size as int && slot !in sorted[..i]
        decreases size as int - i
      {
        i := i + 1;
      }
      at := i;
      MoveDown(i);
      ghost var was := old(sorted[..size]);
      assert was[i] == slot && was[..i] == old(sorted[..i]) && was[i + 1..] == old(sorted[i + 1..size]);
      assert sorted[..size - 1] == sorted[..i] + sorted[i..size - 1];
      WithoutIs(was, i);
    }

    /** The loop that closes a gap in the sorted index. */
    method MoveDown(i: nat)
      requires i < size as int <= sorted.Length
      modifies sorted
      ensures sorted[..i] == old(sorted[..i]) && sorted[i..size - 1] == old(sorted[i + 1..size])
    {
      hide *;
      var j := i;
      while j < size as int - 1
        invariant i <= j <= size as int - 1
        invariant forall m :: 0 <= m < sorted.Length && !(i <= m < j) ==> sorted[m] == old(sorted[m])
        invariant forall m :: i <= m < j ==> sorted[m] == old(sorted[m + 1])
      {
        sorted[j] := sorted[j + 1];
        j := j + 1;
      }
      assert sorted[..i] == old(sorted[..i]);
      ghost var tail := old(sorted[i + 1..size]);
      forall m | 0 <= m < |tail| ensures sorted[i..size - 1][m] == tail[m] {
        assert sorted[i..size - 1][m] == sorted[i + m] == old(sorted[i + m + 1]);
      }
    }

    lemma WithoutIs(index: seq<byte>, at: nat)
      requires at < |index|
      ensures Without(index, at) == index[..at] + index[at + 1..]
    {
    }

    /** Puts one slot into the sorted index in front of the first higher pitch. */
    method InsertSorted(slot: byte, note: byte) returns (ghost at: nat)
      requires HasShape() && size as int < capacity
      requires forall i :: 0 <= i < size as int ==> sorted[i] as int <= capacity
      modifies sorted
      ensures at <= size as int
      ensures forall i :: 0 <= i < at ==> Pool()[old(sorted[i])].note <= note
      ensures at < size as int ==> Pool()[old(sorted[at])].note > note
      ensures sorted[..size + 1] == old(sorted[..at]) + [slot] + old(sorted[at..size])
    {
      hide Nodes;
      var i := 0;
      while i < size as int && NodeAt(sorted[i]).note <= note
        invariant 0 <= i <= size as int
        invariant forall m :: 0 <= m < i ==> Pool()[sorted[m]].note <= note
      {
        i := i + 1;
      }
      at := i;
      MoveUp(i);
      sorted[i] := slot;
    }

    /** Makes a gap in the sorted index. */
    method MoveUp(i: nat)
      requires i <= size as int < sorted.Length
      modifies sorted
      ensures sorted[..i] == old(sorted[..i]) && sorted[i + 1..size + 1] == old(sorted[i..size])
    {
      hide *;
      var j := size as int;
      while j > i
        invariant i <= j <= size as int
        invariant forall m :: 0 <= m <= j ==> sorted[m] == old(sorted[m])
        invariant forall m :: j < m <= size as int ==> sorted[m] == old(sorted[m - 1])
      {
        sorted[j] := sorted[j - 1];
        j := j - 1;
      }
      ghost var before, after := old(sorted[..]), sorted[..];
      ShiftedUp(before, after, i, size as int);
      assert before[..i] == old(sorted[..i]) && before[i..size] == old(sorted[i..size]);
      assert after[..i] == sorted[..i] && after[i + 1..size + 1] == sorted[i + 1..size + 1];
    }

    /** Walks the chain down to a pitch; `current` is 0 when the pitch is not pressed. */
    method Find(note: byte) returns (current: byte, previous: byte, ghost k: nat)
      requires Valid()
      ensures k <= |order| && current == Pointer(order, k) && previous == if k == 0 then 0 else order[k - 1]
      ensures forall j :: 0 <= j < k ==> Keys()[j].note != note
      ensures k < |order| ==> Keys()[k].note == note
      ensures current as int <= capacity && (current != 0 ==> Pool()[current].note == note)
      ensures current == 0 <==> forall j :: 0 <= j < |Keys()| ==> Keys()[j].note != note
    {
      hide *;
      Opened();
      Walk(0);
      current, previous, k := root, 0, 0;
      while current != 0 && NodeAt(current).note != note
        invariant k <= |order|
        invariant current == Pointer(order, k) && previous == if k == 0 then 0 else order[k - 1]
        invariant current as int <= capacity && (current == 0 <==> k == |order|)
        invariant current != 0 ==> Keys()[k].note == Pool()[current].note
        invariant forall j :: 0 <= j < k ==> Keys()[j].note != note
        decreases |order| - k
      {
        Walk(k);
        Walk(k + 1);
        previous := current;
        current := NodeAt(current).next;
        k := k + 1;
      }
    }

    /** The chain at its k-th node, or behind its end. */
    lemma Walk(k: nat)
      requires Valid() && k <= |order|
      ensures Pointer(order, 0) == root && |Keys()| == |order|
      ensures k < |order| ==>
                && Pointer(order, k) == order[k] && 1 <= order[k] as int <= capacity
                && Keys()[k].note == Pool()[order[k]].note && Pool()[order[k]].next == Pointer(order, k + 1)
      ensures k == |order| ==> Pointer(order, k) == 0
    {
      if k < |order| {
        assert LinksOn(Pool(), order, k);
      }
    }

    /** Makes the chain skip its k-th node, blanks that node and drops it from the sorted index. */
    method Unlink(current: byte, previous: byte, ghost k: nat) returns (ghost at: nat)
      requires HasShape() && InPool(Pool(), order) && k < |order| == size as int <= capacity
      requires root == order[0] && current == order[k] && previous == if k == 0 then 0 else order[k - 1]
      requires current != previous && current in sorted[..size]
      modifies this, mem, sorted
      ensures Pool() == Unlinked(old(Pool()), old(order), k)
      ensures root == if k == 0 then old(Pool()[root].next) else old(root)
      ensures order == Without(old(order), k) && size == old(size) - 1
      ensures at <= size as int && sorted[..size] == Without(old(sorted[..size]), at) && old(sorted[at]) == current
    {
      if previous != 0 {
        SetNode(previous, NodeAt(previous).(next := NodeAt(current).next));
      } else {
        root := NodeAt(current).next;
      }
      at := RemoveSorted(current);
      SetNode(current, FREE_NODE);
      size := size - 1;
      order := Without(order, k);
    }

    method NoteOff(note: byte)
      requires Valid()
      modifies this, mem, sorted
      ensures Valid()
      ensures Keys() == Release(old(Keys()), note)
      ensures EmptiesSlot(old(Pool()), Pool(), note)
    {
      var current, previous, k := Find(note);
      if current == 0 {
        ReleaseAbsent(Keys(), note);
        AbsentFromSlots(note);
        return;
      }
      SlotHoldsKey(current);
      assert current in order && order[k] == current && Distinct(order) && InPool(Pool(), order);
      ghost var pool, order0, index := Pool(), order, sorted[..size];
      PointsElsewhere(pool, order, k);
      UnlinkKeepsChain(pool, root, order, k, Without(order, k));
      UnlinkEmptiesSlot(pool, order, k);
      hide IsChain, Nodes, KeysOf, Release, Unlinked, Distinct, EmptiesSlot;
      ghost var at := Unlink(current, previous, k);
      UnlinkKeepsIndex(pool, order0, k, order, index, at, sorted[..size]);
    }

    /** The scan that a full stack makes for its oldest note: the only node that points nowhere. */
    method OldestNote() returns (note: byte)
      requires Valid() && size as int == capacity
      ensures note == Keys()[capacity - 1].note
    {
      ChainFits(Pool(), root, order);
      ghost var tail := order[capacity - 1];
      note := 0;
      for i := 1 to capacity + 1
        invariant tail < i ==> note == Pool()[tail].note
      {
        assert i as byte in order;
        ghost var k :| 0 <= k < |order| && order[k] == i;
        assert LinksOn(Pool(), order, k);
        if NodeAt(i).next == 0 {
          note := NodeAt(i).note;
        }
      }
    }

    method FreeSlot() returns (slot: byte)
      requires Valid() && size as int < capacity
      ensures 1 <= slot as int <= capacity && Pool()[slot].note == FREE_SLOT
    {
      ChainFits(Pool(), root, order);
      slot := 1;
      while NodeAt(slot).note != FREE_SLOT
        invariant 1 <= slot as int <= capacity
        invariant forall s: byte :: 1 <= s < slot ==> Pool()[s].note != FREE_SLOT
        decreases capacity - slot as int
      {
        slot := slot + 1;
      }
    }

    /** Fills a free node, puts it at the head of the chain and into the sorted index. */
    method Link(slot: byte, note: byte, velocity: byte) returns (ghost at: nat)
      requires HasShape() && size as int == |order| < capacity && 1 <= slot as int <= capacity
      requires forall i :: 0 <= i < size as int ==> sorted[i] as int <= capacity
      modifies this, mem, sorted
      ensures Pool() == old(Pool())[slot := Node(note, velocity, old(root))]
      ensures root == slot && order == [slot] + old(order) && size == old(size) + 1
      ensures Removes(old(sorted[..size]), sorted[..size], at) && sorted[at] == slot
      ensures forall i :: 0 <= i < at ==> old(Pool()[sorted[i]]).note <= note
      ensures at < old(size) as int ==> old(Pool()[sorted[at]]).note > note
    {
      at := InsertSorted(slot, note);
      SetNode(slot, Node(note, velocity, root));
      root := slot;
      size := size + 1;
      order := [slot] + order;
    }

    /** Puts a key that is not in the stack at its top. */
    method Push(note: byte, velocity: byte)
      requires Valid() && size as int < capacity && note != FREE_SLOT
      requires forall i :: 0 <= i < |Keys()| ==> Keys()[i].note != note
      modifies this, mem, sorted
      ensures Valid()
      ensures Keys() == [Key(note, velocity)] + old(Keys())
    {
      var slot := FreeSlot();
      ghost var pool, order0, root0, index := Pool(), order, root, sorted[..size];
      assert KeysOf(pool, order0) == Keys();
      ghost var at := Link(slot, note, velocity);
      LinkKeeps(pool, root0, order0, index, slot, Key(note, velocity), at, sorted[..size]);
    }

    method NoteOn(note: byte, velocity: byte)
      requires Valid() && note != FREE_SLOT
      modifies this, mem, sorted
      ensures Valid()
      ensures Keys() == Press(old(Keys()), capacity, Key(note, velocity))
    {
      hide *;
      Opened();
      PressInSteps(Keys(), capacity, note);
      PressIs(Key(note, velocity));
      NoteOff(note);
      Opened();
      if size as int == capacity {
        var oldest := OldestNote();
        NoteOff(oldest);
        Opened();
      }
      Push(note, velocity);
    }

    /** What `Valid` says of the keys. */
    lemma Opened()
      requires Valid()
      ensures HasShape() && 0 < capacity < 255
      ensures size as int == |order| == |Keys()| <= capacity && DistinctNotes(Keys())
    {
    }

    lemma PressIs(key: Key)
      requires Valid() && 0 < capacity
      ensures var others := Release(Keys(), key.note);
              Press(Keys(), capacity, key) == [key] + if |others| >= capacity then others[..capacity - 1] else others
    {
    }

    /** The key pressed `index` keys after the oldest one. */
    method PlayedNote(index: byte) returns (key: Key)
      requires Valid() && index < size
      ensures key == Keys()[size - index - 1]
    {
      var current := root;
      for i := 0 to size - index - 1
        invariant current == order[i]
      {
        assert LinksOn(Pool(), order, i);
        current := NodeAt(current).next;
      }
      key := Key(NodeAt(current).note, NodeAt(current).velocity);
    }

    /** The index-th key by ascending pitch. */
    method SortedNote(index: byte) returns (key: Key)
      requires Valid() && index < size
      ensures key in Keys()
      ensures |LowerKeys(Keys(), key.note)| == index as int
    {
      ghost var at := sorted[index];
      assert at in order;
      ghost var m :| 0 <= m < |order| && order[m] == at;
      key := Key(NodeAt(sorted[index]).note, NodeAt(sorted[index]).velocity);
      assert Keys()[m] == key;
      RankInIndex(Pool(), order, sorted[..size], index as int);
    }

    /** The key at the top of the stack; the dummy node when no key is pressed. */
    function MostRecentNote(): (node: Node)
      requires Valid()
      reads this, mem, sorted
      ensures Keys() == [] ==> node.note == FREE_SLOT
      ensures Keys() != [] ==> Key(node.note, node.velocity) == Keys()[0]
    {
      NodeAt(root)
    }

    /** Writes a velocity through `mutable_note`. */
    method SetVelocity(slot: byte, velocity: byte)
      requires Valid() && 1 <= slot as int <= capacity && Pool()[slot].note != FREE_SLOT
      modifies mem
      ensures Valid()
      ensures Keys() == WithVelocity(old(Keys()), old(Pool()[slot]).note, velocity)
      ensures Pool() == old(Pool())[slot := old(Pool()[slot]).(velocity := velocity)]
    {
      SetVelocityKeepsChain(Pool(), root, order, sorted[..size], slot, velocity);
      SetNode(slot, NodeAt(slot).(velocity := velocity));
    }
  }
}
